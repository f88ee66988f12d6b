/**
 * The task service of the NestJS back end: a store of task rows with the ids of
 * the existing users and projects, and the service's rules for creating,
 * updating, assigning, progressing and seeding tasks.
 */
module TasksService {
  import opened Common
  import opened Entities
  import Text

  function TaskNotFound(id: string): string { "Task with ID " + id + " not found" }
  function UserNotFound(id: string): string { "User with ID " + id + " not found" }
  function ProjectNotFound(id: string): string { "Project with ID " + id + " not found" }
  const ProgressOutOfRange: string := "Progress must be between 0 and 100"

  /** The fields a caller may supply when creating a task; absent ones take the column defaults. */
  datatype TaskDraft = TaskDraft(
    name: string,
    description: string,
    priority: Option<Priority>,
    difficulty: Option<Difficulty>,
    status: Option<string>,
    estimatedHours: Option<int>,
    projectId: Option<string>,
    assignedUserId: Option<string>)

  /** A partial update: every present field overwrites the stored one. */
  datatype TaskPatch = TaskPatch(
    name: Option<string>,
    description: Option<string>,
    priority: Option<Priority>,
    difficulty: Option<Difficulty>,
    status: Option<string>,
    estimatedHours: Option<int>,
    progress: Option<int>,
    isCompleted: Option<bool>,
    projectId: Option<string>,
    assignedUserId: Option<string>)

  /** The single-row updates the service issues. */
  datatype Change =
    | AssignUser(userId: string)
    | SetStatus(status: string)
    | SetProgress(progress: int)
    | ApplyPatch(patch: TaskPatch)

  function Apply(t: Task, c: Change): Task
  {
    match c
    case AssignUser(u) => t.(assignedUserId := Some(u))
    case SetStatus(s) => t.(status := s)
    case SetProgress(p) => t.(progress := p, isCompleted := p == 100)
    case ApplyPatch(p) =>
      t.(name := p.name.GetOr(t.name),
         description := p.description.GetOr(t.description),
         priority := p.priority.GetOr(t.priority),
         difficulty := p.difficulty.GetOr(t.difficulty),
         status := p.status.GetOr(t.status),
         estimatedHours := p.estimatedHours.GetOr(t.estimatedHours),
         progress := p.progress.GetOr(t.progress),
         isCompleted := p.isCompleted.GetOr(t.isCompleted),
         projectId := p.projectId.GetOr(t.projectId),
         assignedUserId := if p.assignedUserId.Some? then p.assignedUserId else t.assignedUserId)
  }

  /** The first row with the given id, or the service's not-found error. */
  function FindIn(rows: seq<Task>, id: string): (r: Result<Task>)
    ensures r.Ok? ==> r.value in rows && r.value.id == id
    ensures r.Err? <==> forall i :: 0 <= i < |rows| ==> rows[i].id != id
    ensures r.Err? ==> r.message == TaskNotFound(id)
  {
    if |rows| == 0 then Err(TaskNotFound(id))
    else if rows[0].id == id then Ok(rows[0])
    else FindIn(rows[1..], id)
  }

  /** A repository `update(id, …)`: every row with that id is changed, no other row is. */
  function UpdateWhere(rows: seq<Task>, id: string, c: Change): (r: seq<Task>)
    ensures |r| == |rows|
  {
    if |rows| == 0 then []
    else [if rows[0].id == id then Apply(rows[0], c) else rows[0]] + UpdateWhere(rows[1..], id, c)
  }

  /** Only the row with the given id changes, every other row and every id stays as it was. */
  lemma {:induction false} UpdateWhereSpec(rows: seq<Task>, id: string, c: Change, i: nat)
    requires i < |rows|
    ensures UpdateWhere(rows, id, c)[i] == if rows[i].id == id then Apply(rows[i], c) else rows[i]
    decreases |rows|
  {
    if i > 0 {
      UpdateWhereSpec(rows[1..], id, c, i - 1);
    }
  }

  /** Reading a row back after updating it gives the old row with the change applied,
      and an update of a missing id leaves it missing. */
  lemma {:induction false} FindAfterUpdate(rows: seq<Task>, id: string, c: Change)
    ensures FindIn(UpdateWhere(rows, id, c), id)
      == match FindIn(rows, id) case Ok(t) => Ok(Apply(t, c)) case Err(m) => Err(m)
    decreases |rows|
  {
    if |rows| > 0 && rows[0].id != id {
      FindAfterUpdate(rows[1..], id, c);
    }
  }

  /** The ids of an update are the ids before it (`Apply` never changes an id). */
  lemma {:induction false} UpdateKeepsIds(rows: seq<Task>, id: string, c: Change)
    ensures forall i :: 0 <= i < |rows| ==> UpdateWhere(rows, id, c)[i].id == rows[i].id
    decreases |rows|
  {
    if |rows| > 0 {
      UpdateKeepsIds(rows[1..], id, c);
    }
  }

  function Ids(rows: seq<Task>): set<string>
  {
    set i | 0 <= i < |rows| :: rows[i].id
  }

  predicate DistinctIds(rows: seq<Task>)
  {
    forall i, j :: 0 <= i < j < |rows| ==> rows[i].id != rows[j].id
  }

  /** A new row from a draft, with the entity's defaults for absent columns. */
  function NewTask(id: string, d: TaskDraft): Task
  {
    Task(id, d.name, d.description, d.priority.GetOr(Medium), d.difficulty.GetOr(Moderate),
         d.status.GetOr(Todo), d.estimatedHours.GetOr(0), 0, false, d.projectId.GetOr(""), d.assignedUserId)
  }

  // ---------------------------------------------------------------- seeding

  /** One record of the seed file. */
  datatype SeedRecord = SeedRecord(
    taskName: string,
    taskType: string,
    difficultyExplanation: string,
    mainSkill: string,
    workload: string,
    priorityReason: int)

  /** The seed file's priority score 1..5 as a priority; other scores fall back to medium. */
  function SeedPriority(reason: int): Priority
  {
    if reason == 1 || reason == 2 then Low
    else if reason == 4 then High
    else if reason == 5 then Urgent
    else Medium
  }

  /** The seed file's task type as a difficulty; other types fall back to medium. */
  function SeedDifficulty(taskType: string): Difficulty
  {
    if taskType == "Low" then Easy
    else if taskType == "High" then Hard
    else Moderate
  }

  /** The seed file's workload as estimated hours. */
  function SeedHours(workload: string): int
  {
    if workload == "Large" then 40 else if workload == "Medium" then 20 else 8
  }

  function PriorityRank(p: Priority): nat
  {
    match p case Low => 0 case Medium => 1 case High => 2 case Urgent => 3
  }

  /** Seeding never produces a very hard task, and only the three named types leave the default. */
  lemma {:induction false} SeedDifficultySpec(taskType: string)
    ensures SeedDifficulty(taskType) != VeryHard
    ensures SeedDifficulty(taskType) == Moderate <==> taskType != "Low" && taskType != "High"
  {
  }

  /** Higher priority scores never give a lower priority, and scores outside 1..5 give medium. */
  lemma {:induction false} SeedPriorityMonotone(a: int, b: int)
    requires 1 <= a <= b <= 5
    ensures PriorityRank(SeedPriority(a)) <= PriorityRank(SeedPriority(b))
  {
  }

  /** The users of one department, in table order. */
  function InDepartment(users: seq<User>, department: string): (r: seq<User>)
    ensures |r| <= |users|
    ensures forall u :: u in r <==> u in users && u.department == department
    ensures |r| > 0 <==> Staffed(users, department)
  {
    if |users| == 0 then []
    else
      var rest := InDepartment(users[1..], department);
      assert forall u :: u in users <==> u == users[0] || u in users[1..];
      assert Staffed(users[1..], department) ==> Staffed(users, department);
      (if users[0].department == department then [users[0]] else []) + rest
  }

  /** Some user of the table belongs to the department. */
  ghost predicate Staffed(users: seq<User>, department: string)
  {
    exists u :: u in users && u.department == department
  }

  /** The pool holds exactly the users of the department. */
  ghost predicate DepartmentPool(pool: seq<User>, users: seq<User>, department: string)
  {
    forall u :: u in pool <==> u in users && u.department == department
  }

  /**
   * The users a seeded task may be assigned to: the Backend users when its main
   * skill names Backend and there are any, else the Frontend users likewise,
   * else the AI users likewise, else everybody.
   */
  function SeedPool(mainSkill: string, users: seq<User>): (pool: seq<User>)
    ensures forall u :: u in pool ==> u in users
    ensures |users| > 0 ==> |pool| > 0
    ensures Text.Contains(mainSkill, "Backend") && Staffed(users, "Backend") ==> DepartmentPool(pool, users, "Backend")
    ensures (!(Text.Contains(mainSkill, "Backend") && Staffed(users, "Backend"))
             && Text.Contains(mainSkill, "Frontend") && Staffed(users, "Frontend"))
            ==> DepartmentPool(pool, users, "Frontend")
    ensures (!(Text.Contains(mainSkill, "Backend") && Staffed(users, "Backend"))
             && !(Text.Contains(mainSkill, "Frontend") && Staffed(users, "Frontend"))
             && Text.Contains(mainSkill, "AI") && Staffed(users, "AI"))
            ==> DepartmentPool(pool, users, "AI")
    ensures (!(Text.Contains(mainSkill, "Backend") && Staffed(users, "Backend"))
             && !(Text.Contains(mainSkill, "Frontend") && Staffed(users, "Frontend"))
             && !(Text.Contains(mainSkill, "AI") && Staffed(users, "AI")))
            ==> pool == users
  {
    var backend, frontend, ai := InDepartment(users, "Backend"), InDepartment(users, "Frontend"), InDepartment(users, "AI");
    if Text.Contains(mainSkill, "Backend") && |backend| > 0 then backend
    else if Text.Contains(mainSkill, "Frontend") && |frontend| > 0 then frontend
    else if Text.Contains(mainSkill, "AI") && |ai| > 0 then ai
    else users
  }

  /** The task seeded from one record; `choice` stands for the random index into the pool. */
  function SeedTask(rec: SeedRecord, id: string, projectId: string, users: seq<User>, choice: nat): (t: Task)
    ensures t.status == Todo && t.projectId == projectId && t.progress == 0 && !t.isCompleted
    ensures t.id == id && t.name == rec.taskName && t.description == rec.difficultyExplanation
    ensures t.priority == SeedPriority(rec.priorityReason) && t.difficulty == SeedDifficulty(rec.taskType)
    ensures t.estimatedHours == SeedHours(rec.workload) && t.estimatedHours in {8, 20, 40}
    ensures t.assignedUserId.Some? <==> |users| > 0
    ensures t.assignedUserId.Some? ==> exists u :: u in SeedPool(rec.mainSkill, users) && u.id == t.assignedUserId.value
    ensures t.assignedUserId.Some? ==> exists u :: u in users && u.id == t.assignedUserId.value
  {
    var pool := SeedPool(rec.mainSkill, users);
    var assignee := if |pool| == 0 then None else Some(pool[choice % |pool|].id);
    Task(id, rec.taskName, rec.difficultyExplanation, SeedPriority(rec.priorityReason),
         SeedDifficulty(rec.taskType), Todo, SeedHours(rec.workload), 0, false, projectId, assignee)
  }

  function SeededTasks(records: seq<SeedRecord>, ids: seq<string>, projectId: string, users: seq<User>, choices: seq<nat>): (r: seq<Task>)
    requires |ids| == |records| && |choices| == |records|
    ensures |r| == |records|
  {
    seq(|records|, i requires 0 <= i < |records| => SeedTask(records[i], ids[i], projectId, users, choices[i]))
  }

  /** Rows that all belong to the project are all found for it. */
  lemma {:induction false} FilteredAll(rows: seq<Task>, projectId: string)
    requires forall k :: 0 <= k < |rows| ==> rows[k].projectId == projectId
    ensures TaskRepository.Filtered(rows, projectId) == rows
    decreases |rows|
  {
    if |rows| > 0 {
      FilteredAll(rows[1..], projectId);
    }
  }

  /** Every seeded task is found for the project it was seeded into. */
  lemma SeededAllFound(records: seq<SeedRecord>, ids: seq<string>, projectId: string, users: seq<User>, choices: seq<nat>)
    requires |ids| == |records| && |choices| == |records|
    ensures TaskRepository.Filtered(SeededTasks(records, ids, projectId, users, choices), projectId)
            == SeededTasks(records, ids, projectId, users, choices)
  {
    FilteredAll(SeededTasks(records, ids, projectId, users, choices), projectId);
  }

  /** The task table with the users and projects tables reduced to their ids. */
  class TaskRepository {
    var rows: seq<Task>
    var userIds: set<string>
    var projectIds: set<string>
    var taskCounts: map<string, nat>  // the `taskCount` column of the projects written so far

    ghost predicate Valid()
      reads this
    {
      DistinctIds(rows)
    }

    constructor (userIds: set<string>, projectIds: set<string>)
      ensures Valid() && rows == [] && this.userIds == userIds && this.projectIds == projectIds && taskCounts == map[]
    {
      rows := [];
      taskCounts := map[];
      this.userIds := userIds;
      this.projectIds := projectIds;
    }

    /** `findOne`: the row with that id, or NotFound. */
    function FindOne(id: string): Result<Task>
      reads this
    {
      FindIn(rows, id)
    }

    /** `findByProject`: the project's rows in table order. */
    function FindByProject(projectId: string): (r: seq<Task>)
      reads this
      ensures forall t :: t in r <==> t in rows && t.projectId == projectId
    {
      Filtered(rows, projectId)
    }

    static function Filtered(rows: seq<Task>, projectId: string): (r: seq<Task>)
      ensures forall t :: t in r <==> t in rows && t.projectId == projectId
    {
      if |rows| == 0 then []
      else (if rows[0].projectId == projectId then [rows[0]] else []) + Filtered(rows[1..], projectId)
    }

    /** `assignToUser`: an unknown user is NotFound and nothing changes; otherwise only the task's
        assignee changes, and reading the task back fails when the task does not exist. */
    method AssignToUser(taskId: string, userId: string) returns (r: Result<Task>)
      requires Valid()
      modifies this`rows
      ensures Valid()
      ensures userId !in userIds ==> r == Err(UserNotFound(userId)) && rows == old(rows)
      ensures userId in userIds ==> rows == UpdateWhere(old(rows), taskId, AssignUser(userId))
      ensures userId in userIds ==> (r.Ok? <==> old(FindIn(rows, taskId)).Ok?)
      ensures userId in userIds && r.Ok? ==>
        r.value == old(FindIn(rows, taskId)).value.(assignedUserId := Some(userId))
      ensures r.Err? && userId in userIds ==> r.message == TaskNotFound(taskId)
    {
      if userId !in userIds {
        return Err(UserNotFound(userId));
      }
      UpdateKeepsIds(rows, taskId, AssignUser(userId));
      FindAfterUpdate(rows, taskId, AssignUser(userId));
      rows := UpdateWhere(rows, taskId, AssignUser(userId));
      r := FindIn(rows, taskId);
    }

    /** `updateStatus`: only the status of the task changes. */
    method UpdateStatus(taskId: string, status: string) returns (r: Result<Task>)
      requires Valid()
      modifies this`rows
      ensures Valid()
      ensures rows == UpdateWhere(old(rows), taskId, SetStatus(status))
      ensures r.Ok? <==> old(FindIn(rows, taskId)).Ok?
      ensures r.Ok? ==> r.value == old(FindIn(rows, taskId)).value.(status := status)
    {
      UpdateKeepsIds(rows, taskId, SetStatus(status));
      FindAfterUpdate(rows, taskId, SetStatus(status));
      rows := UpdateWhere(rows, taskId, SetStatus(status));
      r := FindIn(rows, taskId);
    }

    /** `updateProgress`: values outside 0..100 are refused without change; otherwise the progress
        is stored and the task is completed exactly when the progress is 100. */
    method UpdateProgress(taskId: string, progress: int) returns (r: Result<Task>)
      requires Valid()
      modifies this`rows
      ensures Valid()
      ensures (progress < 0 || progress > 100) ==> r == Err(ProgressOutOfRange) && rows == old(rows)
      ensures 0 <= progress <= 100 ==> rows == UpdateWhere(old(rows), taskId, SetProgress(progress))
      ensures 0 <= progress <= 100 ==> (r.Ok? <==> old(FindIn(rows, taskId)).Ok?)
      ensures r.Ok? ==> r.value.progress == progress && 0 <= progress <= 100
      ensures r.Ok? ==> (r.value.isCompleted <==> progress == 100)
      ensures r.Ok? ==> r.value == old(FindIn(rows, taskId)).value.(progress := progress, isCompleted := progress == 100)
    {
      if progress < 0 || progress > 100 {
        return Err(ProgressOutOfRange);
      }
      UpdateKeepsIds(rows, taskId, SetProgress(progress));
      FindAfterUpdate(rows, taskId, SetProgress(progress));
      rows := UpdateWhere(rows, taskId, SetProgress(progress));
      r := FindIn(rows, taskId);
    }

    /** `create`: a given project must exist, then a given assignee must exist; only then is the row
        saved under the id the database generates (`freshId`). */
    method Create(draft: TaskDraft, freshId: string) returns (r: Result<Task>)
      requires Valid() && freshId !in Ids(rows)
      modifies this`rows
      ensures Valid()
      ensures Truthy(draft.projectId) && draft.projectId.value !in projectIds ==>
        r == Err(ProjectNotFound(draft.projectId.value)) && rows == old(rows)
      ensures (!(Truthy(draft.projectId) && draft.projectId.value !in projectIds)
               && Truthy(draft.assignedUserId) && draft.assignedUserId.value !in userIds) ==>
        r == Err(UserNotFound(draft.assignedUserId.value)) && rows == old(rows)
      ensures r.Ok? <==> !(Truthy(draft.projectId) && draft.projectId.value !in projectIds)
                         && !(Truthy(draft.assignedUserId) && draft.assignedUserId.value !in userIds)
      ensures r.Ok? ==> r.value == NewTask(freshId, draft) && rows == old(rows) + [r.value]
    {
      if Truthy(draft.projectId) && draft.projectId.value !in projectIds {
        return Err(ProjectNotFound(draft.projectId.value));
      }
      if Truthy(draft.assignedUserId) && draft.assignedUserId.value !in userIds {
        return Err(UserNotFound(draft.assignedUserId.value));
      }
      var t := NewTask(freshId, draft);
      assert forall i :: 0 <= i < |rows| ==> rows[i].id in Ids(rows);
      rows := rows + [t];
      r := Ok(t);
    }

    /** `update`: a missing task is NotFound; a project or assignee is checked only when it is given
        and differs from the stored one; then every given field is written. */
    method Update(id: string, patch: TaskPatch) returns (r: Result<Task>)
      requires Valid()
      modifies this`rows
      ensures Valid()
      ensures old(FindIn(rows, id)).Err? ==> r == Err(TaskNotFound(id)) && rows == old(rows)
      ensures old(FindIn(rows, id)).Ok? ==>
        var cur := old(FindIn(rows, id)).value;
        var badProject := Truthy(patch.projectId) && patch.projectId.value != cur.projectId
                          && patch.projectId.value !in projectIds;
        var badUser := Truthy(patch.assignedUserId) && patch.assignedUserId != cur.assignedUserId
                       && patch.assignedUserId.value !in userIds;
        (badProject ==> r == Err(ProjectNotFound(patch.projectId.value)) && rows == old(rows))
        && (!badProject && badUser ==> r == Err(UserNotFound(patch.assignedUserId.value)) && rows == old(rows))
        && (!badProject && !badUser ==>
              rows == UpdateWhere(old(rows), id, ApplyPatch(patch)) && r == Ok(Apply(cur, ApplyPatch(patch))))
    {
      var found := FindIn(rows, id);
      if found.Err? {
        return Err(found.message);
      }
      var cur := found.value;
      if Truthy(patch.projectId) && patch.projectId.value != cur.projectId && patch.projectId.value !in projectIds {
        return Err(ProjectNotFound(patch.projectId.value));
      }
      if Truthy(patch.assignedUserId) && patch.assignedUserId != cur.assignedUserId
         && patch.assignedUserId.value !in userIds {
        return Err(UserNotFound(patch.assignedUserId.value));
      }
      UpdateKeepsIds(rows, id, ApplyPatch(patch));
      FindAfterUpdate(rows, id, ApplyPatch(patch));
      rows := UpdateWhere(rows, id, ApplyPatch(patch));
      r := FindIn(rows, id);
    }

    /** The seeding loop of `seedTasks`: one saved task per record, in file order, into an empty table. */
    method SaveSeeded(records: seq<SeedRecord>, freshIds: seq<string>, projectId: string, users: seq<User>, choices: seq<nat>)
      requires rows == []
      requires |freshIds| == |records| && |choices| == |records|
      requires forall i, j :: 0 <= i < j < |freshIds| ==> freshIds[i] != freshIds[j]
      modifies this`rows
      ensures Valid() && rows == SeededTasks(records, freshIds, projectId, users, choices)
    {
      var i := 0;
      while i < |records|
        invariant 0 <= i <= |records|
        invariant rows == SeededTasks(records, freshIds, projectId, users, choices)[..i]
        invariant forall k :: 0 <= k < i ==> rows[k].id == freshIds[k]
      {
        rows := rows + [SeedTask(records[i], freshIds[i], projectId, users, choices[i])];
        i := i + 1;
      }
    }

    /**
     * `seedTasks`: nothing happens when any task exists. Otherwise the project
     * named `Movie Streaming Platform` is used (`existing`, the result of looking
     * it up by name) or created under `newProjectId`; one task per seed record is
     * saved to it, in file order; and the project's task count is set to the
     * number of its tasks, which is the number of records.
     */
    method SeedTasks(records: seq<SeedRecord>, freshIds: seq<string>, existing: Option<string>, newProjectId: string,
                     users: seq<User>, choices: seq<nat>)
      requires Valid()
      requires existing.Some? ==> existing.value in projectIds
      requires |freshIds| == |records| && |choices| == |records|
      requires forall i, j :: 0 <= i < j < |freshIds| ==> freshIds[i] != freshIds[j]
      modifies this`rows, this`projectIds, this`taskCounts
      ensures Valid()
      ensures |old(rows)| > 0 ==> rows == old(rows) && projectIds == old(projectIds) && taskCounts == old(taskCounts)
      ensures |old(rows)| == 0 ==>
        var pid := existing.GetOr(newProjectId);
        projectIds == old(projectIds) + {pid}
        && rows == SeededTasks(records, freshIds, pid, users, choices)
        && taskCounts == old(taskCounts)[pid := |FindByProject(pid)|]
        && taskCounts[pid] == |records|
    {
      if |rows| > 0 {
        return;
      }
      var projectId := existing.GetOr(newProjectId);
      if existing.None? {
        projectIds := projectIds + {projectId};
      }
      SaveSeeded(records, freshIds, projectId, users, choices);
      SeededAllFound(records, freshIds, projectId, users, choices);
      taskCounts := taskCounts[projectId := |FindByProject(projectId)|];
    }
  }
}
