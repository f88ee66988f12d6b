/**
 * The attendance views of django_project/apps/attendance/views.py: the daily
 * check-in / check-out state machine over the attendance table, the status
 * report that tells the page which button to offer, the month window of the
 * history page and the counters of the team overview.
 *
 * The table holds at most one record per user and date, so it is a map keyed by
 * (user, date). Clock readings are parameters: `today` is a day number and
 * `now` an instant.
 */
module Attendance {
  import opened Common
  import Seqs

  /** The key of a record: one per user and date. */
  datatype Day = Day(user: nat, date: int)

  /** One attendance record. */
  datatype Entry = Entry(checkIn: Option<int>, checkOut: Option<int>, status: string)

  type Table = map<Day, Entry>

  const Present: string := "present"
  const Late: string := "late"
  const Absent: string := "absent"

  // ------------------------------------------------------------ status report

  /** What `get_attendance_status` reports for a user's record of today. */
  datatype StatusReport = StatusReport(hasAttendance: bool, canCheckIn: bool, canCheckOut: bool)

  function StatusOf(records: Table, key: Day): (r: StatusReport)
    ensures r.hasAttendance <==> key in records
    ensures r.canCheckIn <==> key !in records || records[key].checkIn.None?
    ensures r.canCheckOut <==> key in records && records[key].checkIn.Some? && records[key].checkOut.None?
  {
    if key in records then
      var e := records[key];
      StatusReport(true, e.checkIn.None?, e.checkIn.Some? && e.checkOut.None?)
    else StatusReport(false, true, false)
  }

  /** The two buttons are never offered together. */
  lemma StatusExclusive(records: Table, key: Day)
    ensures !(StatusOf(records, key).canCheckIn && StatusOf(records, key).canCheckOut)
  {
  }

  // ------------------------------------------------------------ transitions

  datatype CheckInOutcome = AlreadyCheckedIn(at: int) | CheckedIn(created: bool)

  datatype CheckOutOutcome = NoRecord | NotCheckedIn | AlreadyCheckedOut(at: int) | CheckedOut

  /** `check_in`: refuse a second check-in, else create the record or fill in its check-in. */
  function CheckInStep(records: Table, key: Day, now: int): (Table, CheckInOutcome)
  {
    if key in records && records[key].checkIn.Some? then (records, AlreadyCheckedIn(records[key].checkIn.value))
    else if key !in records then (records[key := Entry(Some(now), None, Present)], CheckedIn(true))
    else (records[key := records[key].(checkIn := Some(now))], CheckedIn(false))
  }

  /** `check_out`: refuse without a record, without a check-in, or a second time; else record it. */
  function CheckOutStep(records: Table, key: Day, now: int): (Table, CheckOutOutcome)
  {
    if key !in records then (records, NoRecord)
    else if records[key].checkIn.None? then (records, NotCheckedIn)
    else if records[key].checkOut.Some? then (records, AlreadyCheckedOut(records[key].checkOut.value))
    else (records[key := records[key].(checkOut := Some(now))], CheckedOut)
  }

  /**
   * A check-in succeeds exactly when the status report offers it; a refused one
   * changes nothing; a successful one sets only today's check-in, to `now`,
   * creating the record as present when there was none.
   */
  lemma CheckInSpec(records: Table, key: Day, now: int)
    ensures CheckInStep(records, key, now).1.CheckedIn? <==> StatusOf(records, key).canCheckIn
    ensures CheckInStep(records, key, now).1.AlreadyCheckedIn? ==> CheckInStep(records, key, now).0 == records
    ensures CheckInStep(records, key, now).1.CheckedIn? ==>
              var after := CheckInStep(records, key, now).0;
              key in after && after[key].checkIn == Some(now)
              && (key in records ==> after[key] == records[key].(checkIn := Some(now)))
              && (key !in records ==> after[key].status == Present && after[key].checkOut.None?)
    ensures forall d :: d != key ==> (d in CheckInStep(records, key, now).0 <==> d in records)
    ensures forall d :: d != key && d in records ==> CheckInStep(records, key, now).0[d] == records[d]
  {
  }

  /**
   * A check-out succeeds exactly when the status report offers it; the refusals
   * come in the order no record, no check-in, already checked out, and change
   * nothing; a successful one sets only today's check-out, to `now`.
   */
  lemma CheckOutSpec(records: Table, key: Day, now: int)
    ensures CheckOutStep(records, key, now).1.CheckedOut? <==> StatusOf(records, key).canCheckOut
    ensures CheckOutStep(records, key, now).1.NoRecord? <==> key !in records
    ensures CheckOutStep(records, key, now).1.NotCheckedIn? <==> key in records && records[key].checkIn.None?
    ensures !CheckOutStep(records, key, now).1.CheckedOut? ==> CheckOutStep(records, key, now).0 == records
    ensures CheckOutStep(records, key, now).1.CheckedOut? ==>
              CheckOutStep(records, key, now).0 == records[key := records[key].(checkOut := Some(now))]
  {
  }

  /** After a successful check-in the page offers check-out, unless the record already had one. */
  lemma CheckInThenStatus(records: Table, key: Day, now: int)
    requires CheckInStep(records, key, now).1.CheckedIn?
    ensures !StatusOf(CheckInStep(records, key, now).0, key).canCheckIn
    ensures StatusOf(CheckInStep(records, key, now).0, key).canCheckOut
        <==> key !in records || records[key].checkOut.None?
  {
  }

  /** After a successful check-out neither button is offered. */
  lemma CheckOutThenStatus(records: Table, key: Day, now: int)
    requires CheckOutStep(records, key, now).1.CheckedOut?
    ensures !StatusOf(CheckOutStep(records, key, now).0, key).canCheckIn
    ensures !StatusOf(CheckOutStep(records, key, now).0, key).canCheckOut
  {
  }

  /** Once set, a check-in or check-out time is never overwritten by either view. */
  lemma TimesAreWrittenOnce(records: Table, key: Day, now: int, d: Day)
    requires d in records
    ensures d in CheckInStep(records, key, now).0 && d in CheckOutStep(records, key, now).0
    ensures records[d].checkIn.Some? ==> CheckInStep(records, key, now).0[d].checkIn == records[d].checkIn
    ensures records[d].checkIn.Some? ==> CheckOutStep(records, key, now).0[d].checkIn == records[d].checkIn
    ensures records[d].checkOut.Some? ==> CheckInStep(records, key, now).0[d].checkOut == records[d].checkOut
    ensures records[d].checkOut.Some? ==> CheckOutStep(records, key, now).0[d].checkOut == records[d].checkOut
  {
  }

  /** The attendance table, updated in place by the two views. */
  class Store {
    var records: Table

    constructor ()
      ensures records == map[]
    {
      records := map[];
    }

    method CheckIn(user: nat, today: int, now: int) returns (r: CheckInOutcome)
      modifies this
      ensures (records, r) == CheckInStep(old(records), Day(user, today), now)
    {
      var key := Day(user, today);
      if key in records && records[key].checkIn.Some? {
        return AlreadyCheckedIn(records[key].checkIn.value);
      }
      if key !in records {
        records := records[key := Entry(Some(now), None, Present)];
        r := CheckedIn(true);
      } else {
        records := records[key := records[key].(checkIn := Some(now))];
        r := CheckedIn(false);
      }
    }

    method CheckOut(user: nat, today: int, now: int) returns (r: CheckOutOutcome)
      modifies this
      ensures (records, r) == CheckOutStep(old(records), Day(user, today), now)
    {
      var key := Day(user, today);
      if key !in records {
        return NoRecord;
      }
      if records[key].checkIn.None? {
        return NotCheckedIn;
      }
      if records[key].checkOut.Some? {
        return AlreadyCheckedOut(records[key].checkOut.value);
      }
      records := records[key := records[key].(checkOut := Some(now))];
      r := CheckedOut;
    }

    method AttendanceStatus(user: nat, today: int) returns (r: StatusReport)
      ensures r == StatusOf(records, Day(user, today))
    {
      var key := Day(user, today);
      if key in records {
        r := StatusReport(true, records[key].checkIn.None?, records[key].checkIn.Some? && records[key].checkOut.None?);
      } else {
        r := StatusReport(false, true, false);
      }
    }
  }

  // ------------------------------------------------------------ history window

  /** A calendar date, compared lexicographically. */
  datatype Date = Date(year: int, month: int, day: int)

  predicate Before(a: Date, b: Date)
  {
    a.year < b.year || (a.year == b.year && (a.month < b.month || (a.month == b.month && a.day < b.day)))
  }

  /** The years `datetime` accepts. */
  const MinYear: int := 1
  const MaxYear: int := 9999

  predicate ValidMonth(year: int, month: int)
  {
    MinYear <= year <= MaxYear && 1 <= month <= 12
  }

  /**
   * The history window `[start, end)`: the first of the month, and the first
   * of the next month, December rolling over into January. `datetime` rejects a
   * month outside 1..12 and a year outside 1..9999, so December of year 9999
   * raises as well.
   */
  function MonthWindow(year: int, month: int): (r: Result<(Date, Date)>)
    ensures r.Ok? <==> ValidMonth(year, month) && !(month == 12 && year == MaxYear)
  {
    if !ValidMonth(year, month) then Err("month must be in 1..12 and year in 1..9999")
    else if month == 12 then
      if year + 1 > MaxYear then Err("year is out of range")
      else Ok((Date(year, month, 1), Date(year + 1, 1, 1)))
    else Ok((Date(year, month, 1), Date(year, month + 1, 1)))
  }

  /** A date (month 1..12, day 1..31) falls in the window exactly when it lies in that month. */
  lemma MonthWindowContains(year: int, month: int, d: Date)
    requires MonthWindow(year, month).Ok?
    requires 1 <= d.month <= 12 && 1 <= d.day <= 31
    ensures var (start, end) := MonthWindow(year, month).value;
            (!Before(d, start) && Before(d, end)) <==> d.year == year && d.month == month
  {
  }

  /** The window starts on the first of the month and ends on the first of the following month. */
  lemma MonthWindowBounds(year: int, month: int)
    requires MonthWindow(year, month).Ok?
    ensures MonthWindow(year, month).value.0 == Date(year, month, 1)
    ensures month < 12 ==> MonthWindow(year, month).value.1 == Date(year, month + 1, 1)
    ensures month == 12 ==> MonthWindow(year, month).value.1 == Date(year + 1, 1, 1)
    ensures Before(MonthWindow(year, month).value.0, MonthWindow(year, month).value.1)
  {
  }

  /** Missing query parameters fall back to today's month and year (`if not month or not year`). */
  function HistoryMonth(month: Option<int>, year: Option<int>, today: Date): (r: (int, int))
    ensures month.None? || year.None? ==> r == (today.month, today.year)
    ensures month.Some? && year.Some? ==> r == (month.value, year.value)
  {
    if month.None? || year.None? then (today.month, today.year) else (month.value, year.value)
  }

  // ------------------------------------------------------------ team overview

  /** Today's status of a user, when the user has a record. */
  predicate HasStatus(today: map<nat, string>, status: string, u: nat)
  {
    u in today && today[u] == status
  }

  /** A user counted as absent: no record, or a record marked absent. */
  predicate CountsAbsent(today: map<nat, string>, u: nat)
  {
    u !in today || today[u] == Absent
  }

  /**
   * The counting loop of `team_attendance`: a user without a record today is
   * absent, and a record adds to the counter of its status, if any.
   */
  method TeamCounts(users: seq<nat>, today: map<nat, string>) returns (present: nat, late: nat, absent: nat)
    ensures present == Seqs.Count(users, u => HasStatus(today, Present, u))
    ensures late == Seqs.Count(users, u => HasStatus(today, Late, u))
    ensures absent == Seqs.Count(users, u => CountsAbsent(today, u))
  {
    present, late, absent := 0, 0, 0;
    for i := 0 to |users|
      invariant present == Seqs.Count(users[..i], u => HasStatus(today, Present, u))
      invariant late == Seqs.Count(users[..i], u => HasStatus(today, Late, u))
      invariant absent == Seqs.Count(users[..i], u => CountsAbsent(today, u))
    {
      var u := users[i];
      assert users[..i + 1][..i] == users[..i];
      if u in today {
        if today[u] == Present {
          present := present + 1;
        } else if today[u] == Late {
          late := late + 1;
        } else if today[u] == Absent {
          absent := absent + 1;
        }
      } else {
        absent := absent + 1;
      }
    }
    assert users[..|users|] == users;
  }

  /**
   * Each user adds to at most one counter, so the three never exceed the number
   * of users; they add up to it exactly when every record has one of the three
   * statuses.
   */
  lemma {:induction false} TeamCountsBound(users: seq<nat>, today: map<nat, string>)
    ensures Seqs.Count(users, u => HasStatus(today, Present, u)) + Seqs.Count(users, u => HasStatus(today, Late, u))
            + Seqs.Count(users, u => CountsAbsent(today, u)) <= |users|
    ensures (forall u :: u in today ==> today[u] in {Present, Late, Absent}) ==>
            Seqs.Count(users, u => HasStatus(today, Present, u)) + Seqs.Count(users, u => HasStatus(today, Late, u))
            + Seqs.Count(users, u => CountsAbsent(today, u)) == |users|
    decreases |users|
  {
    if |users| > 0 {
      TeamCountsBound(users[..|users| - 1], today);
    }
  }
}
