/**
 * hackathon-fe/src/pages/project-detail.tsx: the project page's conversion of
 * the back end's task rows into the page's tasks, and the statistics it shows
 * (totals, overall progress, a count and share per status).
 *
 * The page's clock (`new Date()`) is the parameter `now`; dates are instants
 * in milliseconds, and their ISO rendering is not part of this model.
 * Percentages use exact rational arithmetic before `Math.round`.
 */
module ProjectDetail {
  import opened Common
  import Seqs

  /** A task row as the back end sends it; absent fields are `None`. */
  datatype BackendTask = BackendTask(
    id: string, name: string, description: string, status: Option<string>, priority: Option<string>,
    dueDate: Option<int>, assignedUserId: Option<string>, assignedUserName: Option<string>, progress: Option<int>)

  /** A task as the page shows it. */
  datatype Task = Task(
    id: string, title: string, description: string, status: string, priority: string,
    deadline: Option<int>, isOverdue: bool, assigneeId: string, assigneeName: string, progressPercentage: int)

  /** `task.progress || 0`. */
  function ProgressOrZero(x: Option<int>): int
  {
    if x.Some? then x.value else 0
  }

  /** The conversion in `loadProjectData`. */
  function Convert(t: BackendTask, now: int): Task
  {
    Task(t.id, t.name, t.description, OrElse(t.status, "todo"), OrElse(t.priority, "medium"),
         t.dueDate, t.dueDate.Some? && t.dueDate.value < now,
         OrElse(t.assignedUserId, ""), OrElse(t.assignedUserName, "Unassigned"), ProgressOrZero(t.progress))
  }

  /**
   * Missing fields get their defaults: status `todo`, priority `medium`, no
   * assignee (`""`, shown as `Unassigned`) and progress 0; present ones are
   * kept; a task is overdue exactly when its due date has passed.
   */
  lemma ConvertDefaults(t: BackendTask, now: int)
    ensures var c := Convert(t, now);
            c.id == t.id && c.title == t.name && c.description == t.description
            && (t.status.None? || t.status == Some("") ==> c.status == "todo")
            && (t.status.Some? && t.status.value != "" ==> c.status == t.status.value)
            && (t.priority.None? || t.priority == Some("") ==> c.priority == "medium")
            && (t.priority.Some? && t.priority.value != "" ==> c.priority == t.priority.value)
            && (t.assignedUserId.None? ==> c.assigneeId == "")
            && (t.assignedUserName.None? ==> c.assigneeName == "Unassigned")
            && (t.progress.None? ==> c.progressPercentage == 0)
            && (c.isOverdue <==> t.dueDate.Some? && t.dueDate.value < now)
  {
  }

  /** `Math.round(part / total * 100)`, or 0 when there is nothing to divide by. */
  function Percent(part: nat, total: nat): int
  {
    if total > 0 then (200 * part + total) / (2 * total) else 0
  }

  /**
   * A percentage is the whole number nearest to the exact share (halves
   * round up), so it lies between 0 and 100 when the part is at most the
   * total, and it is 0 and 100 for none and all.
   */
  lemma PercentNearest(part: nat, total: nat)
    requires total > 0
    ensures var p := Percent(part, total);
            2 * total * p - total <= 200 * part < 2 * total * p + total
    ensures part <= total ==> 0 <= Percent(part, total) <= 100
    ensures Percent(0, total) == 0 && Percent(total, total) == 100
  {
    var d := 2 * total;
    var p := Percent(part, total);
    DivBounds(200 * part + total, d);
    if part <= total {
      assert d * p < d * 101;
      MulLess(d, p, 101);
    }
    DivBounds(total, d);
    assert d * Percent(0, total) < d * 1;
    MulLess(d, Percent(0, total), 1);
    var all := Percent(total, total);
    DivBounds(200 * total + total, d);
    assert d * all < d * 101 && d * 100 < d * (all + 1);
    MulLess(d, all, 101);
    MulLess(d, 100, all + 1);
  }

  lemma DivBounds(a: nat, d: nat)
    requires d > 0
    ensures 0 <= a / d && d * (a / d) <= a < d * (a / d) + d
  {
  }

  lemma MulLess(d: nat, x: int, y: int)
    requires d > 0 && d * x < d * y
    ensures x < y
  {
    if x >= y {
      MulMono(d, y, x);
    }
  }

  lemma MulMono(d: nat, x: int, y: int)
    requires x <= y
    ensures d * x <= d * y
  {
    assert d * y - d * x == d * (y - x);
  }

  /** The totals of `calculateStats`. */
  datatype Stats = Stats(totalTasks: nat, completedTasks: nat, inProgressTasks: nat, overdueTasks: nat, progressPercentage: int)

  predicate IsDone(t: Task) { t.status == "done" }
  predicate IsInProgress(t: Task) { t.status == "in_progress" }
  predicate IsOverdue(t: Task) { t.isOverdue }

  /** The totals shown at the top of the page. */
  function StatsOf(tasks: seq<Task>): (s: Stats)
    ensures s.totalTasks == |tasks|
    ensures s.completedTasks + s.inProgressTasks <= s.totalTasks
    ensures s.overdueTasks <= s.totalTasks
    ensures 0 <= s.progressPercentage <= 100
    ensures s.totalTasks == 0 ==> s.progressPercentage == 0
  {
    var done := Seqs.Count(tasks, IsDone);
    Seqs.CountMonotone(tasks, IsDone, IsDone);
    DoneAndInProgress(tasks);
    if |tasks| > 0 then PercentNearest(done, |tasks|); 
      Stats(|tasks|, done, Seqs.Count(tasks, IsInProgress), Seqs.Count(tasks, IsOverdue), Percent(done, |tasks|))
    else Stats(0, 0, 0, 0, 0)
  }

  /** Done and in-progress tasks are disjoint, so their counts add up to at most the total. */
  lemma {:induction false} DoneAndInProgress(tasks: seq<Task>)
    ensures Seqs.Count(tasks, IsDone) + Seqs.Count(tasks, IsInProgress) <= |tasks|
    decreases |tasks|
  {
    if |tasks| > 0 {
      DoneAndInProgress(tasks[..|tasks| - 1]);
    }
  }

  /** A status's entry in the per-status statistics. */
  datatype StatusStat = StatusStat(name: string, count: nat, percentage: int)

  function StatusOf(t: Task): Option<string> { Some(t.status) }

  /** The per-status counts `calculateStats` accumulates. */
  method CountStatuses(tasks: seq<Task>) returns (counts: map<string, nat>)
    ensures counts == Seqs.Tally(tasks, StatusOf)
  {
    counts := map[];
    for i := 0 to |tasks|
      invariant counts == Seqs.Tally(tasks[..i], StatusOf)
    {
      assert tasks[..i + 1] == tasks[..i] + [tasks[i]];
      Seqs.TallySnoc(tasks[..i], tasks[i], StatusOf);
      counts := Seqs.Increment(counts, tasks[i].status);
    }
    assert tasks[..|tasks|] == tasks;
  }

  /** `calculateStats`: the totals, and per status present its count and rounded share. */
  method CalculateStats(tasks: seq<Task>) returns (stats: Stats, statusStats: map<string, StatusStat>)
    ensures stats == StatsOf(tasks)
    ensures statusStats.Keys == Seqs.Tally(tasks, StatusOf).Keys
    ensures forall s :: s in statusStats ==>
              statusStats[s] == StatusStat(s, Seqs.CountOf(Seqs.Tally(tasks, StatusOf), s),
                                           Percent(Seqs.CountOf(Seqs.Tally(tasks, StatusOf), s), |tasks|))
  {
    stats := StatsOf(tasks);
    var counts := CountStatuses(tasks);
    statusStats := map s | s in counts :: StatusStat(s, counts[s], Percent(counts[s], |tasks|));
  }

  /**
   * The statuses listed are exactly those of some task; each count is the
   * number of tasks in that status (at least one), and the counts add up to
   * the number of tasks.
   */
  lemma StatusCountsPartition(tasks: seq<Task>)
    ensures forall s :: s in Seqs.Tally(tasks, StatusOf) <==> exists k :: 0 <= k < |tasks| && tasks[k].status == s
    ensures forall s :: s in Seqs.Tally(tasks, StatusOf) ==> 1 <= Seqs.CountOf(Seqs.Tally(tasks, StatusOf), s) <= |tasks|
    ensures Seqs.MapSum(Seqs.Tally(tasks, StatusOf)) == |tasks|
  {
    forall s
      ensures s in Seqs.Tally(tasks, StatusOf) <==> exists k :: 0 <= k < |tasks| && tasks[k].status == s
      ensures s in Seqs.Tally(tasks, StatusOf) ==> 1 <= Seqs.CountOf(Seqs.Tally(tasks, StatusOf), s) <= |tasks|
    {
      StatusTallied(tasks, s);
    }
    Seqs.TallySum(tasks, StatusOf);
  }

  /** One status: listed exactly when some task has it, with its count between 1 and the total. */
  lemma StatusTallied(tasks: seq<Task>, s: string)
    ensures s in Seqs.Tally(tasks, StatusOf) <==> exists k :: 0 <= k < |tasks| && tasks[k].status == s
    ensures s in Seqs.Tally(tasks, StatusOf) ==> 1 <= Seqs.CountOf(Seqs.Tally(tasks, StatusOf), s) <= |tasks|
  {
    var has := Seqs.Is(StatusOf, s);
    Seqs.TallyCounts(tasks, StatusOf, s);
    if exists k :: 0 <= k < |tasks| && tasks[k].status == s {
      var k :| 0 <= k < |tasks| && tasks[k].status == s;
      assert StatusOf(tasks[k]) == Some(s);
      assert has(tasks[k]);
      Seqs.CountPositive(tasks, has, k);
    } else {
      var hasNot := (t: Task) => !has(t);
      Seqs.CountAll(tasks, hasNot);
      Seqs.CountComplement(tasks, has, hasNot);
    }
  }
}
