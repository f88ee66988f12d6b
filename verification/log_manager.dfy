/**
 * debugs_project/log_manager.py: a command-line helper over the activity, error
 * and debug logs of the task-management system. It creates missing logs, tallies
 * the activity log by kind of event, lists the errors logged since a cutoff,
 * reports how many lines a cleanup would remove, and shows the last lines of
 * each log.
 *
 * A `LogManager` holds the three files: the lines each one holds, every line
 * with its terminator as `for line in f` yields it, or `None` when the file does
 * not exist. Clock reads are parameters: the creation stamp written into a new
 * log, and each cutoff instant (the current time minus the hours or days asked
 * for). Each regular expression is a structural recogniser tried at every
 * position from the left, as `re.search` does.
 */
module LogManager {
  import opened Common
  import Text
  import Seqs
  import DashboardLogs

  // ------------------------------------------------------------ searching

  /** The decimal number written by the `n` digits at position `i` of `s`. */
  function Number(s: string, i: nat, n: nat): nat
    requires Text.DigitsAt(s, i, n)
  {
    Text.ParseDigits(s[i..i + n])
  }

  // ------------------------------------------------------------ lines

  /** A line the analysis loops look at: not blank, and the raw line does not start with `#`. */
  predicate Counted(line: string)
  {
    Text.Strip(line) != "" && !Text.StartsWith(line, "#")
  }

  /** The one line written into a log file that did not exist. */
  function HeaderLine(now: string): string
  {
    "# Log file created: " + now + "\n"
  }

  /** A log file as `ensure_log_files` leaves it: created with its header line when missing. */
  function Created(file: Option<seq<string>>, now: string): (r: Option<seq<string>>)
    ensures r.Some?
    ensures file.Some? ==> r == file
  {
    if file.None? then Some([HeaderLine(now)]) else file
  }

  /** The header of a new log is never counted, so a new log reads as empty. */
  lemma HeaderNotCounted(now: string)
    ensures !Counted(HeaderLine(now))
  {
    assert HeaderLine(now)[0] == '#';
  }

  // ------------------------------------------------------------ activity

  /** The branch of the `if`/`elif` chain a line takes. */
  datatype Kind = Login | CheckIn | CheckOut | DashboardView | Unclassified

  /** The first phrase of the chain that the line contains decides its kind. */
  function KindOf(line: string): Kind
  {
    if Text.Contains(line, "Login attempt") then Login
    else if Text.Contains(line, "checked in") then CheckIn
    else if Text.Contains(line, "checked out") then CheckOut
    else if Text.Contains(line, "Dashboard accessed") then DashboardView
    else Unclassified
  }

  predicate IsLogin(line: string) { Counted(line) && KindOf(line) == Login }
  predicate IsFailedLogin(line: string) { IsLogin(line) && Text.Contains(line, "Failed login") }
  predicate IsSuccessfulLogin(line: string) { IsLogin(line) && !Text.Contains(line, "Failed login") }
  predicate IsCheckIn(line: string) { Counted(line) && KindOf(line) == CheckIn }
  predicate IsCheckOut(line: string) { Counted(line) && KindOf(line) == CheckOut }
  predicate IsDashboardView(line: string) { Counted(line) && KindOf(line) == DashboardView }

  /** `[:\s]`, the separator between the word `user` and the name. */
  predicate IsUserSeparator(c: char) { c == ':' || Text.IsSpace(c) }

  /** `user` at `i` in any letter case; Python's case folding also lets the long s `ſ` stand for `s`. */
  predicate UserWordAt(s: string, i: nat)
  {
    i + 4 <= |s|
    && (s[i] == 'u' || s[i] == 'U')
    && (s[i + 1] == 's' || s[i + 1] == 'S' || s[i + 1] == '\U{017F}')
    && (s[i + 2] == 'e' || s[i + 2] == 'E')
    && (s[i + 3] == 'r' || s[i + 3] == 'R')
  }

  /** `user[:\s]+(\w+)` matches at `i`: the word, at least one separator, at least one word character. */
  predicate UserMatchAt(s: string, i: nat)
  {
    UserWordAt(s, i)
    && var k := Text.Span(s[i + 4..], IsUserSeparator);
       k > 0 && Text.Span(s[i + 4 + k..], Text.IsWordChar) > 0
  }

  /** The group captured at a match: the whole run of word characters after the separators. */
  function UserCapture(s: string, i: nat): (r: string)
    requires UserMatchAt(s, i)
    ensures |r| > 0 && forall j :: 0 <= j < |r| ==> Text.IsWordChar(r[j])
  {
    var j := i + 4 + Text.Span(s[i + 4..], IsUserSeparator);
    s[j..j + Text.Span(s[j..], Text.IsWordChar)]
  }

  /** The scan of `re.search` for `user[:\s]+(\w+)`: the leftmost match at or after `from`. */
  function UserStart(s: string, from: nat): (r: Option<nat>)
    ensures r.Some? ==> from <= r.value && UserMatchAt(s, r.value)
    decreases |s| - from
  {
    if UserMatchAt(s, from) then Some(from)
    else if from >= |s| then None
    else UserStart(s, from + 1)
  }

  /** The user a line names: the group of the leftmost match, if there is one. */
  function UserOf(line: string): Option<string>
  {
    match UserStart(line, 0)
    case None => None
    case Some(i) => Some(UserCapture(line, i))
  }

  /** `\d{4}-\d{2}-\d{2}` at position `i`. */
  predicate DateAt(s: string, i: nat)
  {
    Text.DigitsAt(s, i, 4) && i + 4 < |s| && s[i + 4] == '-' && Text.DigitsAt(s, i + 5, 2)
    && i + 7 < |s| && s[i + 7] == '-' && Text.DigitsAt(s, i + 8, 2)
  }

  /** The scan of `re.search` for `(\d{4}-\d{2}-\d{2})`: the leftmost match at or after `from`. */
  function DateStart(s: string, from: nat): (r: Option<nat>)
    ensures r.Some? ==> from <= r.value && DateAt(s, r.value)
    decreases |s| - from
  {
    if DateAt(s, from) then Some(from)
    else if from >= |s| then None
    else DateStart(s, from + 1)
  }

  /** The leftmost date of a line, as its ten characters. */
  function DateOf(line: string): (r: Option<string>)
    ensures r.Some? ==> |r.value| == 10 && DateAt(r.value, 0)
  {
    match DateStart(line, 0)
    case None => None
    case Some(i) => Some(line[i..i + 10])
  }

  /** The tallies of `analyze_activity_logs`. */
  datatype ActivityStats = ActivityStats(
    totalLogins: nat, failedLogins: nat, successfulLogins: nat,
    checkIns: nat, checkOuts: nat, dashboardViews: nat,
    users: set<string>, dailyActivity: map<string, nat>)

  /** The user a counted line names; other lines name none. */
  function UserKey(line: string): Option<string>
  {
    if Counted(line) then UserOf(line) else None
  }

  /** The date a counted line carries; other lines carry none. */
  function DateKey(line: string): Option<string>
  {
    if Counted(line) then DateOf(line) else None
  }

  /** What the analysis tallies over the lines of the activity log. */
  function ActivityOf(lines: seq<string>): ActivityStats
  {
    ActivityStats(
      Seqs.Count(lines, IsLogin), Seqs.Count(lines, IsFailedLogin), Seqs.Count(lines, IsSuccessfulLogin),
      Seqs.Count(lines, IsCheckIn), Seqs.Count(lines, IsCheckOut), Seqs.Count(lines, IsDashboardView),
      Seqs.Image(lines, UserKey), Seqs.Tally(lines, DateKey))
  }

  /**
   * Every login attempt is either failed or successful, and each counted line
   * adds to at most one of logins, check-ins, check-outs and dashboard views.
   */
  lemma {:induction false} ActivityBounds(lines: seq<string>)
    ensures ActivityOf(lines).totalLogins == ActivityOf(lines).failedLogins + ActivityOf(lines).successfulLogins
    ensures ActivityOf(lines).totalLogins + ActivityOf(lines).checkIns + ActivityOf(lines).checkOuts
            + ActivityOf(lines).dashboardViews <= Seqs.Count(lines, Counted)
    decreases |lines|
  {
    if |lines| > 0 {
      ActivityBounds(lines[..|lines| - 1]);
    }
  }

  /** `1` when `b` holds, `0` otherwise. */
  function Bit(b: bool): nat { if b then 1 else 0 }

  /** The counters after one more line of a counted line's kind. */
  function Classified(s: ActivityStats, line: string): ActivityStats
  {
    s.(totalLogins := s.totalLogins + Bit(IsLogin(line)),
       failedLogins := s.failedLogins + Bit(IsFailedLogin(line)),
       successfulLogins := s.successfulLogins + Bit(IsSuccessfulLogin(line)),
       checkIns := s.checkIns + Bit(IsCheckIn(line)),
       checkOuts := s.checkOuts + Bit(IsCheckOut(line)),
       dashboardViews := s.dashboardViews + Bit(IsDashboardView(line)))
  }

  /** The tallies with one more user named, if any. */
  function WithUser(s: ActivityStats, user: Option<string>): ActivityStats
  {
    if user.Some? then s.(users := s.users + {user.value}) else s
  }

  /** The tallies with one more line on a date, if any. */
  function WithDate(s: ActivityStats, date: Option<string>): ActivityStats
  {
    if date.Some? then s.(dailyActivity := Seqs.Increment(s.dailyActivity, date.value)) else s
  }

  /**
   * What one more line adds to the tallies: nothing for a blank or comment
   * line; otherwise one to each counter of its kind, its user to the set, and
   * one to the count of its date.
   */
  function Tallied(s: ActivityStats, line: string): ActivityStats
  {
    if !Counted(line) then s else WithDate(WithUser(Classified(s, line), UserOf(line)), DateOf(line))
  }

  /** One more line adds one to each counter exactly when it is of that counter's kind. */
  lemma CountsSnoc(xs: seq<string>, line: string)
    ensures ActivityOf(xs + [line]).totalLogins == ActivityOf(xs).totalLogins + Bit(IsLogin(line))
    ensures ActivityOf(xs + [line]).failedLogins == ActivityOf(xs).failedLogins + Bit(IsFailedLogin(line))
    ensures ActivityOf(xs + [line]).successfulLogins == ActivityOf(xs).successfulLogins + Bit(IsSuccessfulLogin(line))
    ensures ActivityOf(xs + [line]).checkIns == ActivityOf(xs).checkIns + Bit(IsCheckIn(line))
    ensures ActivityOf(xs + [line]).checkOuts == ActivityOf(xs).checkOuts + Bit(IsCheckOut(line))
    ensures ActivityOf(xs + [line]).dashboardViews == ActivityOf(xs).dashboardViews + Bit(IsDashboardView(line))
  {
    assert (xs + [line])[..|xs|] == xs;
  }

  /** One more line adds its user, if it is counted and names one. */
  lemma UsersSnoc(xs: seq<string>, line: string)
    ensures ActivityOf(xs + [line]).users == if UserKey(line).Some? then ActivityOf(xs).users + {UserKey(line).value} else ActivityOf(xs).users
  {
    Seqs.ImageSnoc(xs, line, UserKey);
  }

  /** One more line adds one to the count of its date, if it is counted and carries one. */
  lemma DailySnoc(xs: seq<string>, line: string)
    ensures ActivityOf(xs + [line]).dailyActivity
         == if DateKey(line).Some? then Seqs.Increment(ActivityOf(xs).dailyActivity, DateKey(line).value) else ActivityOf(xs).dailyActivity
  {
    Seqs.TallySnoc(xs, line, DateKey);
  }

  /** The tallies of a log with one more line are the old tallies with that line added. */
  lemma ActivitySnoc(xs: seq<string>, line: string)
    ensures ActivityOf(xs + [line]) == Tallied(ActivityOf(xs), line)
  {
    CountsSnoc(xs, line);
    UsersSnoc(xs, line);
    DailySnoc(xs, line);
    if Counted(line) {
      var counted := Classified(ActivityOf(xs), line);
      assert WithUser(counted, UserOf(line)).users == ActivityOf(xs + [line]).users;
      assert Tallied(ActivityOf(xs), line).dailyActivity == ActivityOf(xs + [line]).dailyActivity;
    }
  }

  /** The `if`/`elif` chain of the loop: the counters of a counted line's kind go up by one. */
  method CountKind(stats: ActivityStats, line: string) returns (next: ActivityStats)
    requires Counted(line)
    ensures next == Classified(stats, line)
  {
    next := stats;
    if Text.Contains(line, "Login attempt") {
      next := next.(totalLogins := next.totalLogins + 1);
      if Text.Contains(line, "Failed login") {
        next := next.(failedLogins := next.failedLogins + 1);
      } else {
        next := next.(successfulLogins := next.successfulLogins + 1);
      }
    } else if Text.Contains(line, "checked in") {
      next := next.(checkIns := next.checkIns + 1);
    } else if Text.Contains(line, "checked out") {
      next := next.(checkOuts := next.checkOuts + 1);
    } else if Text.Contains(line, "Dashboard accessed") {
      next := next.(dashboardViews := next.dashboardViews + 1);
    }
  }

  /** One pass of the loop over a counted line: its kind, then its user, then its date. */
  method TallyCounted(stats: ActivityStats, line: string) returns (next: ActivityStats)
    requires Counted(line)
    ensures next == Tallied(stats, line)
  {
    next := CountKind(stats, line);
    var user := UserOf(line);
    if user.Some? {
      next := next.(users := next.users + {user.value});
    }
    var date := DateOf(line);
    if date.Some? {
      next := next.(dailyActivity := Seqs.Increment(next.dailyActivity, date.value));
    }
  }

  /** The loop of `analyze_activity_logs`: blank and comment lines are skipped, every other line tallied. */
  method AnalyzeLines(lines: seq<string>) returns (stats: ActivityStats)
    ensures stats == ActivityOf(lines)
  {
    stats := ActivityStats(0, 0, 0, 0, 0, 0, {}, map[]);
    for i := 0 to |lines|
      invariant stats == ActivityOf(lines[..i])
    {
      assert lines[..i + 1] == lines[..i] + [lines[i]];
      ActivitySnoc(lines[..i], lines[i]);
      var line := lines[i];
      if !Counted(line) {
        continue;
      }
      stats := TallyCounted(stats, line);
    }
    assert lines[..|lines|] == lines;
  }

  /** Each date's daily count is the number of counted lines carrying it; dates never seen are absent. */
  lemma DailyCounts(lines: seq<string>, d: string)
    ensures Seqs.CountOf(ActivityOf(lines).dailyActivity, d) == Seqs.Count(lines, Seqs.Is(DateKey, d))
    ensures d in ActivityOf(lines).dailyActivity <==> exists i :: 0 <= i < |lines| && DateKey(lines[i]) == Some(d)
  {
    Seqs.TallyCounts(lines, DateKey, d);
    if Seqs.Count(lines, Seqs.Is(DateKey, d)) > 0 {
      var kept := Seqs.Filter(lines, Seqs.Is(DateKey, d));
      Seqs.FilterLength(lines, Seqs.Is(DateKey, d));
      Seqs.FilterMembers(lines, Seqs.Is(DateKey, d), kept[0]);
    }
    if exists i :: 0 <= i < |lines| && DateKey(lines[i]) == Some(d) {
      var i :| 0 <= i < |lines| && DateKey(lines[i]) == Some(d);
      Seqs.CountPositive(lines, Seqs.Is(DateKey, d), i);
    }
  }

  /** A line that starts `user`, separators, a name: the name is the user it reports. */
  lemma UserOfLeadingName(sep: string, name: string, rest: string)
    requires |sep| > 0 && forall j :: 0 <= j < |sep| ==> IsUserSeparator(sep[j])
    requires |name| > 0 && forall j :: 0 <= j < |name| ==> Text.IsWordChar(name[j])
    requires |rest| == 0 || !Text.IsWordChar(rest[0])
    ensures UserOf("user" + (sep + (name + rest))) == Some(name)
  {
    var line := "user" + (sep + (name + rest));
    LeadingNameParts(sep, name, rest);
    Text.SpanOf(sep, name + rest, IsUserSeparator);
    if |rest| == 0 {
      assert name + rest == name;
      Text.SpanWhole(name, Text.IsWordChar);
    } else {
      Text.SpanOf(name, rest, Text.IsWordChar);
    }
    assert UserMatchAt(line, 0);
    assert UserStart(line, 0) == Some(0);
  }

  /** Where the separators and the name sit in such a line. */
  lemma LeadingNameParts(sep: string, name: string, rest: string)
    ensures ("user" + (sep + (name + rest)))[4..] == sep + (name + rest)
    ensures ("user" + (sep + (name + rest)))[4 + |sep|..] == name + rest
    ensures ("user" + (sep + (name + rest)))[4 + |sep|..4 + |sep| + |name|] == name
  {
    var line := "user" + (sep + (name + rest));
    assert line[4..] == sep + (name + rest);
    assert line[4 + |sep|..] == name + rest;
    assert line[4 + |sep|..4 + |sep| + |name|] == name;
  }

  // ------------------------------------------------------------ errors

  /** A naive `datetime`. */
  datatype DateTime = DateTime(year: int, month: int, day: int, hour: int, minute: int, second: int)

  predicate LeapYear(y: int) { y % 4 == 0 && (y % 100 != 0 || y % 400 == 0) }

  function DaysInMonth(y: int, m: int): int
    requires 1 <= m <= 12
  {
    if m == 2 then (if LeapYear(y) then 29 else 28)
    else if m == 4 || m == 6 || m == 9 || m == 11 then 30
    else 31
  }

  /** The values `datetime` accepts; `strptime` raises `ValueError` on any other. */
  predicate ValidDateTime(t: DateTime)
  {
    1 <= t.year <= 9999 && 1 <= t.month <= 12 && 1 <= t.day <= DaysInMonth(t.year, t.month)
    && 0 <= t.hour <= 23 && 0 <= t.minute <= 59 && 0 <= t.second <= 59
  }

  /** `a < b` on datetimes: field by field, the year first. */
  predicate Before(a: DateTime, b: DateTime)
  {
    if a.year != b.year then a.year < b.year
    else if a.month != b.month then a.month < b.month
    else if a.day != b.day then a.day < b.day
    else if a.hour != b.hour then a.hour < b.hour
    else if a.minute != b.minute then a.minute < b.minute
    else a.second < b.second
  }

  /** `\d{4}-\d{2}-\d{2}\s+\d{2}:\d{2}:\d{2}` at position `i`. */
  predicate TimestampAt(s: string, i: nat)
  {
    i <= |s| && DashboardLogs.DateTimeLength(s[i..]).Some?
  }

  /** The scan of `re.search` for the timestamp pattern: the leftmost match at or after `from`. */
  function TimestampStart(s: string, from: nat): (r: Option<nat>)
    ensures r.Some? ==> from <= r.value && TimestampAt(s, r.value)
    decreases |s| - from
  {
    if TimestampAt(s, from) then Some(from)
    else if from >= |s| then None
    else TimestampStart(s, from + 1)
  }

  /** The fields of the timestamp matched at `i`, as `strptime` reads them with `%Y-%m-%d %H:%M:%S`. */
  function TimestampFields(s: string, i: nat): DateTime
    requires TimestampAt(s, i)
  {
    var r := s[i..];
    var e := DashboardLogs.DateTimeLength(r).value;
    DateTime(Number(r, 0, 4), Number(r, 5, 2), Number(r, 8, 2), Number(r, e - 8, 2), Number(r, e - 5, 2), Number(r, e - 2, 2))
  }

  /** The time a line was logged: its leftmost timestamp, when `strptime` accepts it. */
  function LoggedAt(line: string): (r: Option<DateTime>)
    ensures r.Some? ==> ValidDateTime(r.value)
  {
    match TimestampStart(line, 0)
    case None => None
    case Some(i) => if ValidDateTime(TimestampFields(line, i)) then Some(TimestampFields(line, i)) else None
  }

  /** A line `check_errors` reports: counted, with a parsable timestamp at or after the cutoff. */
  predicate IsRecentError(line: string, cutoff: DateTime)
  {
    Counted(line) && LoggedAt(line).Some? && !Before(LoggedAt(line).value, cutoff)
  }

  function RecentOn(cutoff: DateTime): string -> bool
  {
    line => IsRecentError(line, cutoff)
  }

  /** The stripped lines reported as recent errors, in file order. */
  function RecentErrors(lines: seq<string>, cutoff: DateTime): seq<string>
  {
    Seqs.Map(Seqs.Filter(lines, RecentOn(cutoff)), Text.Strip)
  }

  /** How many of the errors are listed. */
  const ShownErrors := 10

  /** The outcome of `check_errors`: the count, the recent errors and the last ten of them that are listed. */
  datatype ErrorReport = ErrorReport(errorCount: nat, recentErrors: seq<string>, shown: seq<string>)

  /** `e` is the stripped text of a line of the file that qualifies as a recent error. */
  predicate ReportedFrom(lines: seq<string>, cutoff: DateTime, e: string)
  {
    exists i :: 0 <= i < |lines| && IsRecentError(lines[i], cutoff) && e == Text.Strip(lines[i])
  }

  /** Counted lines whose timestamp parses and is at or after the cutoff are reported, stripped, in order. */
  lemma RecentErrorsSpec(lines: seq<string>, cutoff: DateTime)
    ensures |RecentErrors(lines, cutoff)| == Seqs.Count(lines, RecentOn(cutoff))
    ensures forall k :: 0 <= k < |RecentErrors(lines, cutoff)| ==> ReportedFrom(lines, cutoff, RecentErrors(lines, cutoff)[k])
  {
    var kept := Seqs.Filter(lines, RecentOn(cutoff));
    Seqs.FilterLength(lines, RecentOn(cutoff));
    forall k | 0 <= k < |RecentErrors(lines, cutoff)|
      ensures ReportedFrom(lines, cutoff, RecentErrors(lines, cutoff)[k])
    {
      Seqs.FilterMembers(lines, RecentOn(cutoff), kept[k]);
      var i :| 0 <= i < |lines| && lines[i] == kept[k];
      assert RecentOn(cutoff)(lines[i]);
    }
  }

  /** A timestamp that `strptime` refuses is never reported, whatever the rest of the line holds. */
  lemma UnparsableNotReported(line: string, cutoff: DateTime)
    requires LoggedAt(line).None?
    ensures !IsRecentError(line, cutoff)
  {
  }

  /** The test `check_errors` puts one line through. */
  method RecentErrorLine(line: string, cutoff: DateTime) returns (recent: bool)
    ensures recent == IsRecentError(line, cutoff)
  {
    if !Counted(line) {
      return false;
    }
    var start := TimestampStart(line, 0);
    if start.None? {
      return false;
    }
    var t := TimestampFields(line, start.value);
    return ValidDateTime(t) && !Before(t, cutoff);
  }

  /** The loop of `check_errors`: the recent errors, stripped, in file order, and how many there are. */
  method ScanErrors(lines: seq<string>, cutoff: DateTime) returns (recent: seq<string>, errorCount: nat)
    ensures recent == RecentErrors(lines, cutoff)
    ensures errorCount == Seqs.Count(lines, RecentOn(cutoff)) == |recent|
  {
    recent, errorCount := [], 0;
    for i := 0 to |lines|
      invariant recent == RecentErrors(lines[..i], cutoff)
      invariant errorCount == |recent|
    {
      assert lines[..i + 1][..i] == lines[..i];
      Seqs.MapSnoc(Seqs.Filter(lines[..i], RecentOn(cutoff)), lines[i], Text.Strip);
      var line := lines[i];
      var isRecent := RecentErrorLine(line, cutoff);
      if isRecent {
        errorCount := errorCount + 1;
        recent := recent + [Text.Strip(line)];
      }
    }
    assert lines[..|lines|] == lines;
    RecentErrorsSpec(lines, cutoff);
  }

  // ------------------------------------------------------------ cleanup

  /** The leftmost date of a line at midnight, when `strptime` accepts it with `%Y-%m-%d`. */
  function LineDate(line: string): (r: Option<DateTime>)
    ensures r.Some? ==> ValidDateTime(r.value) && DateOf(line).Some?
  {
    match DateStart(line, 0)
    case None => None
    case Some(i) =>
      var t := DateTime(Number(line, i, 4), Number(line, i + 5, 2), Number(line, i + 8, 2), 0, 0, 0);
      if ValidDateTime(t) then Some(t) else None
  }

  /** A line the cleanup would remove: its date parses and lies before the cutoff. */
  predicate IsOld(line: string, cutoff: DateTime)
  {
    LineDate(line).Some? && Before(LineDate(line).value, cutoff)
  }

  function OldOn(cutoff: DateTime): string -> bool
  {
    line => IsOld(line, cutoff)
  }

  function KeptOn(cutoff: DateTime): string -> bool
  {
    line => !IsOld(line, cutoff)
  }

  /**
   * The kept and the old lines split the file; blank lines, comment lines and
   * lines without a parsable date are all kept.
   */
  lemma CleanupPartition(lines: seq<string>, cutoff: DateTime)
    ensures |Seqs.Filter(lines, KeptOn(cutoff))| + Seqs.Count(lines, OldOn(cutoff)) == |lines|
    ensures forall i :: 0 <= i < |lines| && LineDate(lines[i]).None? ==> lines[i] in Seqs.Filter(lines, KeptOn(cutoff))
  {
    Seqs.FilterLength(lines, KeptOn(cutoff));
    Seqs.CountComplement(lines, OldOn(cutoff), KeptOn(cutoff));
    forall i | 0 <= i < |lines| && LineDate(lines[i]).None?
      ensures lines[i] in Seqs.Filter(lines, KeptOn(cutoff))
    {
      Seqs.FilterMembers(lines, KeptOn(cutoff), lines[i]);
    }
  }

  /** The test `cleanup_old_logs` puts one line through. */
  method OldLine(line: string, cutoff: DateTime) returns (isOld: bool)
    ensures isOld == IsOld(line, cutoff)
  {
    var start := DateStart(line, 0);
    if start.None? {
      return false;
    }
    var t := DateTime(Number(line, start.value, 4), Number(line, start.value + 5, 2), Number(line, start.value + 8, 2), 0, 0, 0);
    return ValidDateTime(t) && Before(t, cutoff);
  }

  /** The loop of `cleanup_old_logs` over one file: the lines it would keep and how many it would remove. */
  method CleanupFile(lines: seq<string>, cutoff: DateTime) returns (kept: seq<string>, oldCount: nat)
    ensures kept == Seqs.Filter(lines, KeptOn(cutoff))
    ensures oldCount == Seqs.Count(lines, OldOn(cutoff))
  {
    kept, oldCount := [], 0;
    for i := 0 to |lines|
      invariant kept == Seqs.Filter(lines[..i], KeptOn(cutoff))
      invariant oldCount == Seqs.Count(lines[..i], OldOn(cutoff))
    {
      assert lines[..i + 1][..i] == lines[..i];
      var line := lines[i];
      var isOld := OldLine(line, cutoff);
      if isOld {
        oldCount := oldCount + 1;
      } else {
        kept := kept + [line];
      }
    }
    assert lines[..|lines|] == lines;
  }

  // ------------------------------------------------------------ tail

  /** Python's `xs[k:]` for any integer `k`. */
  function SliceFrom<T>(xs: seq<T>, k: int): seq<T>
  {
    if k >= 0 then (if k <= |xs| then xs[k..] else [])
    else if -k <= |xs| then xs[|xs| + k..]
    else xs
  }

  /** `all_lines[-lines:] if len(all_lines) > lines else all_lines`. */
  function TailOf(all: seq<string>, n: int): seq<string>
  {
    if |all| > n then SliceFrom(all, -n) else all
  }

  /**
   * A positive count shows the last `n` lines, or all when there are fewer;
   * a count of zero shows every line (`-0` is `0`); a negative count drops
   * that many lines from the head.
   */
  lemma TailOfSpec(all: seq<string>, n: int)
    ensures n > 0 ==> TailOf(all, n) == Seqs.LastN(all, n)
    ensures n == 0 ==> TailOf(all, n) == all
    ensures n < 0 ==> TailOf(all, n) == if -n <= |all| then all[-n..] else []
  {
    if n > 0 && |all| > n {
      assert TailOf(all, n) == all[|all| - n..];
    }
  }

  /** Each line as it is printed, without its trailing whitespace. */
  function RStrip(line: string): string
  {
    Text.TrimEnd(line, Text.Whitespace)
  }

  /** The lines `tail_logs` prints for one file. */
  function TailShown(all: seq<string>, n: int): (r: seq<string>)
    ensures |r| == |TailOf(all, n)|
    ensures forall k :: 0 <= k < |r| ==> r[k] == RStrip(TailOf(all, n)[k])
  {
    Seqs.Map(TailOf(all, n), RStrip)
  }

  // ------------------------------------------------------------ the manager

  /** The three log files a manager looks after. */
  class LogManager {
    var activity: Option<seq<string>>
    var error: Option<seq<string>>
    var debug: Option<seq<string>>

    constructor (activity: Option<seq<string>>, error: Option<seq<string>>, debug: Option<seq<string>>)
      ensures this.activity == activity && this.error == error && this.debug == debug
    {
      this.activity := activity;
      this.error := error;
      this.debug := debug;
    }

    /** The files in the order every report lists them: activity, error, debug. */
    function Files(): (r: seq<Option<seq<string>>>)
      reads this
      ensures |r| == 3
    {
      [activity, error, debug]
    }

    /** `ensure_log_files`: each missing log is created holding its header line; existing logs are untouched. */
    method EnsureLogFiles(now: string)
      modifies this
      ensures activity == Created(old(activity), now)
      ensures error == Created(old(error), now)
      ensures debug == Created(old(debug), now)
    {
      if activity.None? { activity := Some([HeaderLine(now)]); }
      if error.None? { error := Some([HeaderLine(now)]); }
      if debug.None? { debug := Some([HeaderLine(now)]); }
    }

    /**
     * `analyze_activity_logs(days)`: the tallies of the activity log, or `None`
     * when it does not exist. `days` filters nothing.
     */
    method AnalyzeActivityLogs(days: int) returns (r: Option<ActivityStats>)
      ensures r == if activity.None? then None else Some(ActivityOf(activity.value))
    {
      if activity.None? {
        return None;
      }
      var stats := AnalyzeLines(activity.value);
      return Some(stats);
    }

    /**
     * `check_errors`: the errors logged at or after the cutoff, or `None` when
     * the error log does not exist.
     */
    method CheckErrors(cutoff: DateTime) returns (r: Option<ErrorReport>)
      ensures error.None? ==> r.None?
      ensures error.Some? ==> r.Some? && r.value.recentErrors == RecentErrors(error.value, cutoff)
      ensures error.Some? ==> r.value.errorCount == Seqs.Count(error.value, RecentOn(cutoff))
      ensures error.Some? ==> r.value.shown == Seqs.LastN(r.value.recentErrors, ShownErrors)
    {
      if error.None? {
        return None;
      }
      var recent, errorCount := ScanErrors(error.value, cutoff);
      return Some(ErrorReport(errorCount, recent, Seqs.LastN(recent, ShownErrors)));
    }

    /**
     * `cleanup_old_logs`: for each existing log, in report order, how many
     * lines dated before the cutoff would be removed. Nothing is written back.
     */
    method CleanupOldLogs(cutoff: DateTime) returns (removed: seq<Option<nat>>)
      ensures |removed| == 3
      ensures forall k :: 0 <= k < 3 ==>
                removed[k] == if Files()[k].None? then None else Some(Seqs.Count(Files()[k].value, OldOn(cutoff)))
    {
      var files := Files();
      removed := [];
      for k := 0 to 3
        invariant |removed| == k
        invariant forall j :: 0 <= j < k ==>
                    removed[j] == if files[j].None? then None else Some(Seqs.Count(files[j].value, OldOn(cutoff)))
      {
        if files[k].None? {
          removed := removed + [None];
        } else {
          var kept, oldCount := CleanupFile(files[k].value, cutoff);
          removed := removed + [Some(oldCount)];
        }
      }
    }

    /** `tail_logs(lines)`: for each log, in report order, the lines printed, or `None` when it does not exist. */
    method TailLogs(n: int) returns (shown: seq<Option<seq<string>>>)
      ensures |shown| == 3
      ensures forall k :: 0 <= k < 3 ==>
                shown[k] == if Files()[k].None? then None else Some(TailShown(Files()[k].value, n))
    {
      var files := Files();
      shown := [];
      for k := 0 to 3
        invariant |shown| == k
        invariant forall j :: 0 <= j < k ==>
                    shown[j] == if files[j].None? then None else Some(TailShown(files[j].value, n))
      {
        if files[k].None? {
          shown := shown + [None];
        } else {
          var all := files[k].value;
          var recent := if |all| > n then SliceFrom(all, -n) else all;
          shown := shown + [Some(Seqs.Map(recent, RStrip))];
        }
      }
    }

    /**
     * `monitor_system_health` without its file-size lines: the activity tallies
     * (`days=1`, which filters nothing) and the errors since the given cutoff
     * (the current time minus 24 hours).
     */
    method MonitorSystemHealth(dayAgo: DateTime) returns (a: Option<ActivityStats>, e: Option<ErrorReport>)
      ensures a == if activity.None? then None else Some(ActivityOf(activity.value))
      ensures error.None? ==> e.None?
      ensures error.Some? ==> e.Some? && e.value.recentErrors == RecentErrors(error.value, dayAgo)
    {
      a := AnalyzeActivityLogs(1);
      e := CheckErrors(dayAgo);
    }
  }
}
