/**
 * Tasking_project/django_project/apps/tasks/models.py: the rules the task
 * model applies by itself. A project's progress is the share of its tasks
 * that are completed; a task is overdue once its deadline has passed unless
 * it is completed; saving a task stamps when it was first started and first
 * completed; statuses and priorities are shown with Bootstrap badge classes.
 *
 * Instants are integers (seconds on one clock); `timezone.now()` is a
 * parameter. The database write of `super().save()` is not part of this model.
 */
module TaskModel {
  import opened Common
  import Seqs
  import Ratios

  const Completed: string := "completed"
  const InProgress: string := "in_progress"

  // ------------------------------------------------------------ project

  predicate IsCompleted(status: string) { status == Completed }
  predicate NotCompleted(status: string) { status != Completed }

  /**
   * `Project.progress_percentage` over the statuses of the project's tasks:
   * zero for a project without tasks, otherwise the completed share times one
   * hundred, as an exact real number.
   */
  function ProgressPercentage(statuses: seq<string>): real
  {
    if |statuses| == 0 then 0.0
    else (Seqs.Count(statuses, IsCompleted) as real / |statuses| as real) * 100.0
  }

  /**
   * The progress lies between 0 and 100; it is 100 exactly when there are
   * tasks and all are completed, and 0 exactly when none is completed.
   */
  lemma ProgressBounds(statuses: seq<string>)
    ensures 0.0 <= ProgressPercentage(statuses) <= 100.0
    ensures ProgressPercentage(statuses) == 100.0
            <==> |statuses| > 0 && forall i :: 0 <= i < |statuses| ==> IsCompleted(statuses[i])
    ensures ProgressPercentage(statuses) == 0.0
            <==> forall i :: 0 <= i < |statuses| ==> !IsCompleted(statuses[i])
  {
    Seqs.CountAll(statuses, IsCompleted);
    Seqs.CountAll(statuses, NotCompleted);
    Seqs.CountComplement(statuses, IsCompleted, NotCompleted);
    if |statuses| > 0 {
      ShareBounds(Seqs.Count(statuses, IsCompleted), |statuses|);
    }
  }

  /** The share `c / n` of a whole, in percent, lies between 0 and 100 and hits each end exactly. */
  lemma ShareBounds(c: nat, n: nat)
    requires 0 < n && c <= n
    ensures var r := (c as real / n as real) * 100.0;
            && 0.0 <= r <= 100.0
            && (r == 100.0 <==> c == n)
            && (r == 0.0 <==> c == 0)
  {
    Ratios.UnitShare(c as real, n as real);
  }

  // ------------------------------------------------------------ badges

  /** `Task.status_badge_class`: the Bootstrap class of a status, `bg-secondary` for any other value. */
  function StatusBadgeClass(status: string): (r: string)
    ensures r in {"bg-secondary", "bg-primary", "bg-warning", "bg-success", "bg-danger"}
    ensures status !in {"new", "in_progress", "review", "completed", "cancelled"} ==> r == "bg-secondary"
  {
    var classes := map["new" := "bg-secondary", "in_progress" := "bg-primary", "review" := "bg-warning",
                       "completed" := "bg-success", "cancelled" := "bg-danger"];
    if status in classes then classes[status] else "bg-secondary"
  }

  /** `Task.priority_badge_class`: the Bootstrap class of a priority, `bg-secondary` for any other value. */
  function PriorityBadgeClass(priority: string): (r: string)
    ensures r in {"bg-info", "bg-secondary", "bg-warning", "bg-danger"}
    ensures priority !in {"low", "medium", "high", "urgent"} ==> r == "bg-secondary"
  {
    var classes := map["low" := "bg-info", "medium" := "bg-secondary", "high" := "bg-warning", "urgent" := "bg-danger"];
    if priority in classes then classes[priority] else "bg-secondary"
  }

  /**
   * Only a started or completed task gets the primary or success badge, and
   * an unknown status looks like a new one.
   */
  lemma StatusBadgeMeaning(status: string)
    ensures StatusBadgeClass(status) == "bg-primary" <==> status == InProgress
    ensures StatusBadgeClass(status) == "bg-success" <==> status == Completed
    ensures StatusBadgeClass(status) == "bg-secondary" <==> status !in {"in_progress", "review", "completed", "cancelled"}
  {
  }

  // ------------------------------------------------------------ task

  /** A timestamp set once: the current instant if it is unset and the trigger holds, else unchanged. */
  function Stamped(at: Option<int>, trigger: bool, now: int): (r: Option<int>)
    ensures at.Some? ==> r == at
    ensures r.Some? <==> at.Some? || trigger
  {
    if trigger && at.None? then Some(now) else at
  }

  /** A task's stamps after a sequence of saves, each with the status at that save and the instant it ran. */
  function Replay(at: Option<int>, target: string, saves: seq<(string, int)>): Option<int>
    decreases |saves|
  {
    if |saves| == 0 then at
    else Stamped(Replay(at, target, saves[..|saves| - 1]), saves[|saves| - 1].0 == target, saves[|saves| - 1].1)
  }

  /**
   * Once set, a stamp is never overwritten; an unset stamp ends up holding the
   * instant of the first save made with the target status, or stays unset
   * when there is none.
   */
  lemma {:induction false} ReplayFirst(at: Option<int>, target: string, saves: seq<(string, int)>)
    ensures at.Some? ==> Replay(at, target, saves) == at
    ensures at.None? && Replay(at, target, saves).Some? ==>
              exists i :: 0 <= i < |saves| && saves[i].0 == target && Replay(at, target, saves).value == saves[i].1
                          && forall j :: 0 <= j < i ==> saves[j].0 != target
    ensures Replay(at, target, saves).None? <==> at.None? && forall i :: 0 <= i < |saves| ==> saves[i].0 != target
    decreases |saves|
  {
    if |saves| > 0 {
      var init := saves[..|saves| - 1];
      ReplayFirst(at, target, init);
      forall i | 0 <= i < |init| ensures init[i] == saves[i] { }
    }
  }

  class Task {
    var status: string
    var priority: string
    var deadline: int
    var startedAt: Option<int>
    var completedAt: Option<int>

    /** A new task: status `new`, priority `medium`, neither stamp set. */
    constructor (deadline: int)
      ensures status == "new" && priority == "medium" && this.deadline == deadline
      ensures startedAt.None? && completedAt.None?
    {
      status := "new";
      priority := "medium";
      this.deadline := deadline;
      startedAt := None;
      completedAt := None;
    }

    /** `is_overdue`: the deadline is before now and the task is not completed. */
    predicate IsOverdue(now: int)
      reads this
    {
      deadline < now && status != Completed
    }

    /**
     * `save`: stamps `started_at` when the task is in progress and has no
     * start yet, and `completed_at` when it is completed and has no
     * completion yet; nothing else changes.
     */
    method Save(now: int)
      modifies this
      ensures startedAt == Stamped(old(startedAt), old(status) == InProgress, now)
      ensures completedAt == Stamped(old(completedAt), old(status) == Completed, now)
      ensures status == old(status) && priority == old(priority) && deadline == old(deadline)
    {
      if status == InProgress && startedAt.None? {
        startedAt := Some(now);
      }
      if status == Completed && completedAt.None? {
        completedAt := Some(now);
      }
    }
  }

  /** A completed task is never overdue, and an overdue task stays overdue as time passes. */
  lemma OverdueMeaning(t: Task, now: int, later: int)
    ensures t.status == Completed ==> !t.IsOverdue(now)
    ensures t.IsOverdue(now) && now <= later ==> t.IsOverdue(later)
    ensures t.status != Completed && t.deadline < now ==> t.IsOverdue(now)
  {
  }
}
