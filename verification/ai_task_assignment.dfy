/**
 * The AI task-assignment service of the NestJS back end: it writes the task and
 * user documents handed to the external assignment model, and it applies the
 * model's `{taskId, MemberName}` pairs to the task store, reporting one result
 * per pair.
 *
 * Tasks are numbered `TASK01`, `TASK02`, ... in the order the store lists them;
 * a pair names its task by that synthetic id or by the task's name, and its
 * user by display name.
 */
module AiTaskAssignment {
  import opened Common
  import opened Entities
  import Text
  import OrderedGroups
  import TasksService
  import ProjectsService

  // ------------------------------------------------------------ mapping entries

  const TaskIdKey: string := "taskId"
  const LegacyTaskIdKey: string := "Task ID"
  const MemberNameKey: string := "MemberName"
  const LegacyMemberNameKey: string := "Th\U{00E0}nh vi\U{00EA}n (t\U{00EA}n)"

  /**
   * The text under `key`, else the text under `legacy`, else empty: a value that
   * is not a string is skipped as if it were missing.
   */
  function TextField(m: Record, key: string, legacy: string): (r: string)
    ensures key in m && m[key].Str? ==> r == m[key].s
    ensures r != "" ==> (key in m && m[key] == Str(r)) || (legacy in m && m[legacy] == Str(r))
    ensures !(key in m && m[key].Str?) && !(legacy in m && m[legacy].Str?) ==> r == ""
  {
    if key in m && m[key].Str? then m[key].s
    else if legacy in m && m[legacy].Str? then m[legacy].s
    else ""
  }

  function TaskRef(m: Record): string { TextField(m, TaskIdKey, LegacyTaskIdKey) }

  function MemberName(m: Record): string { TextField(m, MemberNameKey, LegacyMemberNameKey) }

  // ------------------------------------------------------------ synthetic ids

  /** `TASK` followed by the counter padded to two digits. */
  function SyntheticId(n: nat): string
  {
    "TASK" + Text.PadStart2(Text.NatToString(n))
  }

  /** The padded counter starts with '0' exactly for the one-digit counters. */
  lemma {:induction false} PaddedFirstDigit(n: nat)
    ensures |Text.PadStart2(Text.NatToString(n))| >= 2
    ensures Text.PadStart2(Text.NatToString(n))[0] == '0' <==> n < 10
    ensures n < 10 ==> Text.PadStart2(Text.NatToString(n)) == ['0', Text.DigitChar(n)]
    ensures n >= 10 ==> Text.PadStart2(Text.NatToString(n)) == Text.NatToString(n)
  {
    if n < 10 {
      assert Text.NatToString(n) == [Text.DigitChar(n)];
    }
  }

  /** Distinct counters give distinct synthetic ids, beyond two digits too. */
  lemma {:induction false} SyntheticIdInjective(a: nat, b: nat)
    requires SyntheticId(a) == SyntheticId(b)
    ensures a == b
  {
    var pa, pb := Text.PadStart2(Text.NatToString(a)), Text.PadStart2(Text.NatToString(b));
    assert pa == SyntheticId(a)[4..] && pb == SyntheticId(b)[4..];
    PaddedFirstDigit(a);
    PaddedFirstDigit(b);
    if a < 10 {
      assert pa[1] == pb[1];
    }
    Text.NatToStringInjective(a, b);
  }

  // ------------------------------------------------------------ look-up tables

  function TaskName(t: Task): string { t.name }
  function TaskId(t: Task): string { t.id }
  function UserName(u: User): string { u.name }
  function UserId(u: User): string { u.id }

  /** A JavaScript `Map` filled by `set(key(x), val(x))` for each x in turn: the last write wins. */
  function LastWins<T>(xs: seq<T>, key: T -> string, val: T -> string): map<string, string>
    decreases |xs|
  {
    if |xs| == 0 then map[]
    else LastWins(xs[..|xs| - 1], key, val)[key(xs[|xs| - 1]) := val(xs[|xs| - 1])]
  }

  /** Whether x at index `i` is the last element of `xs` with key `k`. */
  predicate IsLastWithKey<T>(xs: seq<T>, key: T -> string, k: string, i: int)
  {
    0 <= i < |xs| && key(xs[i]) == k && forall j :: i < j < |xs| ==> key(xs[j]) != k
  }

  /** A key is present exactly when some element has it. */
  lemma {:induction false} LastWinsDomain<T>(xs: seq<T>, key: T -> string, val: T -> string, k: string)
    ensures k in LastWins(xs, key, val) <==> exists i :: 0 <= i < |xs| && key(xs[i]) == k
    decreases |xs|
  {
    if |xs| > 0 {
      var n := |xs|;
      var init := xs[..n - 1];
      LastWinsDomain(init, key, val, k);
      if key(xs[n - 1]) != k {
        if exists i :: 0 <= i < n && key(xs[i]) == k {
          var i :| 0 <= i < n && key(xs[i]) == k;
          assert init[i] == xs[i];
        }
        if exists i :: 0 <= i < n - 1 && key(init[i]) == k {
          var i :| 0 <= i < n - 1 && key(init[i]) == k;
          assert init[i] == xs[i];
        }
      }
    }
  }

  /** The value of a key is the value of the last element that has it. */
  lemma {:induction false} LastWinsValue<T>(xs: seq<T>, key: T -> string, val: T -> string, k: string, i: nat)
    requires IsLastWithKey(xs, key, k, i)
    ensures k in LastWins(xs, key, val) && LastWins(xs, key, val)[k] == val(xs[i])
    decreases |xs|
  {
    var n := |xs|;
    if i < n - 1 {
      var init := xs[..n - 1];
      assert key(xs[n - 1]) != k;
      assert forall j :: 0 <= j < n - 1 ==> init[j] == xs[j];
      assert IsLastWithKey(init, key, k, i);
      LastWinsValue(init, key, val, k, i);
    }
  }

  /** A present key has a last element carrying it. */
  lemma {:induction false} LastWinsHasLast<T>(xs: seq<T>, key: T -> string, val: T -> string, k: string)
    requires k in LastWins(xs, key, val)
    ensures exists i :: IsLastWithKey(xs, key, k, i)
    decreases |xs|
  {
    var n := |xs|;
    if key(xs[n - 1]) == k {
      assert IsLastWithKey(xs, key, k, n - 1);
    } else {
      var init := xs[..n - 1];
      LastWinsHasLast(init, key, val, k);
      var i :| IsLastWithKey(init, key, k, i);
      assert forall j :: 0 <= j < n - 1 ==> init[j] == xs[j];
      assert IsLastWithKey(xs, key, k, i);
    }
  }

  /** The table from synthetic id to task id, numbering tasks from 1 in the given order. */
  function AiIndex(tasks: seq<Task>): map<string, string>
    decreases |tasks|
  {
    if |tasks| == 0 then map[]
    else AiIndex(tasks[..|tasks| - 1])[SyntheticId(|tasks|) := tasks[|tasks| - 1].id]
  }

  /** Synthetic id n maps to the n-th task (counting from 1). */
  lemma {:induction false} AiIndexValues(tasks: seq<Task>)
    ensures forall n :: 1 <= n <= |tasks| ==> SyntheticId(n) in AiIndex(tasks) && AiIndex(tasks)[SyntheticId(n)] == tasks[n - 1].id
    decreases |tasks|
  {
    if |tasks| > 0 {
      var last := |tasks|;
      var init := tasks[..last - 1];
      AiIndexValues(init);
      assert AiIndex(tasks) == AiIndex(init)[SyntheticId(last) := tasks[last - 1].id];
      forall n | 1 <= n <= last ensures SyntheticId(n) in AiIndex(tasks) && AiIndex(tasks)[SyntheticId(n)] == tasks[n - 1].id {
        if n < last {
          if SyntheticId(n) == SyntheticId(last) {
            SyntheticIdInjective(n, last);
          }
          assert init[n - 1] == tasks[n - 1];
        }
      }
    }
  }

  /** Every key is the synthetic id of one of the tasks. */
  lemma {:induction false} AiIndexKeys(tasks: seq<Task>, x: string)
    requires x in AiIndex(tasks)
    ensures exists n :: 1 <= n <= |tasks| && x == SyntheticId(n)
    decreases |tasks|
  {
    var last := |tasks|;
    if x != SyntheticId(last) {
      AiIndexKeys(tasks[..last - 1], x);
    }
  }

  /** The look-up tables `applyAITaskAssignments` builds before reading any entry. */
  datatype Indexes = Indexes(byAiId: map<string, string>, byName: map<string, string>, userByName: map<string, string>)

  function BuildIndexes(tasks: seq<Task>, users: seq<User>): Indexes
  {
    Indexes(AiIndex(tasks), LastWins(tasks, TaskName, TaskId), LastWins(users, UserName, UserId))
  }

  // ------------------------------------------------------------ resolution

  /**
   * The task an entry names: the synthetic id when it maps to a non-empty id,
   * else the task name; empty when neither resolves.
   */
  function ResolveTask(ix: Indexes, ref: string): (r: string)
    ensures ref in ix.byAiId && ix.byAiId[ref] != "" ==> r == ix.byAiId[ref]
    ensures r != "" ==> (ref in ix.byAiId && r == ix.byAiId[ref]) || (ref in ix.byName && r == ix.byName[ref])
  {
    if ref in ix.byAiId && ix.byAiId[ref] != "" then ix.byAiId[ref]
    else if ref in ix.byName then ix.byName[ref]
    else ""
  }

  /** The user an entry names, by display name; empty when unknown. */
  function ResolveUser(ix: Indexes, name: string): string
  {
    if name in ix.userByName then ix.userByName[name] else ""
  }

  /** One line of the report: the reference and name as read from the entry, and what happened. */
  datatype AssignmentResult = AssignmentResult(
    taskId: string,
    userId: string,
    userName: string,
    isAssigned: bool,
    error: Option<string>)

  function TaskNotInProject(ref: string): string { "Task " + ref + " not found in project" }
  function UserNotInDatabase(name: string): string { "User " + name + " not found in database" }

  /**
   * The report line for one entry. The task is checked before the user; a resolved
   * pair is then handed to `assignToUser`, which rejects a user id the task store
   * does not know.
   */
  function Outcome(m: Record, ix: Indexes, userIds: set<string>): (r: AssignmentResult)
    ensures r.taskId == TaskRef(m) && r.userName == MemberName(m)
    ensures r.isAssigned <==> r.error.None?
    ensures ResolveTask(ix, TaskRef(m)) == "" ==> r.error == Some(TaskNotInProject(TaskRef(m))) && r.userId == ""
    ensures r.isAssigned <==>
      (ResolveTask(ix, TaskRef(m)) != "" && ResolveUser(ix, MemberName(m)) != "" && ResolveUser(ix, MemberName(m)) in userIds)
    ensures r.isAssigned ==> r.userId == ResolveUser(ix, MemberName(m))
    ensures ResolveTask(ix, TaskRef(m)) != "" && ResolveUser(ix, MemberName(m)) == "" ==>
      r.error == Some(UserNotInDatabase(MemberName(m))) && r.userId == ""
    ensures ResolveTask(ix, TaskRef(m)) != "" && ResolveUser(ix, MemberName(m)) != ""
            && ResolveUser(ix, MemberName(m)) !in userIds ==>
      r.error == Some(TasksService.UserNotFound(ResolveUser(ix, MemberName(m)))) && r.userId == ResolveUser(ix, MemberName(m))
  {
    var ref, name := TaskRef(m), MemberName(m);
    var task, user := ResolveTask(ix, ref), ResolveUser(ix, name);
    if task == "" then AssignmentResult(ref, "", name, false, Some(TaskNotInProject(ref)))
    else if user == "" then AssignmentResult(ref, "", name, false, Some(UserNotInDatabase(name)))
    else if user !in userIds then AssignmentResult(ref, user, name, false, Some(TasksService.UserNotFound(user)))
    else AssignmentResult(ref, user, name, true, None)
  }

  /** The report: one line per entry, in entry order. */
  function Outcomes(entries: seq<Record>, ix: Indexes, userIds: set<string>): (r: seq<AssignmentResult>)
    ensures |r| == |entries|
    ensures forall k :: 0 <= k < |entries| ==> r[k] == Outcome(entries[k], ix, userIds)
    decreases |entries|
  {
    if |entries| == 0 then []
    else Outcomes(entries[..|entries| - 1], ix, userIds) + [Outcome(entries[|entries| - 1], ix, userIds)]
  }

  /** The task rows after applying entries one by one: each assigned entry sets its task's assignee. */
  function AppliedRows(rows: seq<Task>, entries: seq<Record>, ix: Indexes, userIds: set<string>): (r: seq<Task>)
    decreases |entries|
  {
    if |entries| == 0 then rows
    else
      var prev := AppliedRows(rows, entries[..|entries| - 1], ix, userIds);
      var m := entries[|entries| - 1];
      var o := Outcome(m, ix, userIds);
      if o.isAssigned then TasksService.UpdateWhere(prev, ResolveTask(ix, TaskRef(m)), TasksService.AssignUser(o.userId))
      else prev
  }

  /** A resolved task id is always the id of one of the project's tasks. */
  lemma {:induction false} ResolvedIsProjectTask(tasks: seq<Task>, users: seq<User>, ref: string)
    requires ResolveTask(BuildIndexes(tasks, users), ref) != ""
    ensures exists k :: 0 <= k < |tasks| && tasks[k].id == ResolveTask(BuildIndexes(tasks, users), ref)
  {
    var ix := BuildIndexes(tasks, users);
    var r := ResolveTask(ix, ref);
    if ref in ix.byAiId && r == ix.byAiId[ref] {
      AiIndexKeys(tasks, ref);
      var n :| 1 <= n <= |tasks| && ref == SyntheticId(n);
      AiIndexValues(tasks);
      assert tasks[n - 1].id == r;
    } else {
      LastWinsHasLast(tasks, TaskName, TaskId, ref);
      var i :| IsLastWithKey(tasks, TaskName, ref, i);
      LastWinsValue(tasks, TaskName, TaskId, ref, i);
    }
  }

  /** The synthetic id of a task with a non-empty id resolves to that task. */
  lemma {:induction false} SyntheticIdResolves(tasks: seq<Task>, users: seq<User>, i: nat)
    requires i < |tasks| && tasks[i].id != ""
    ensures ResolveTask(BuildIndexes(tasks, users), SyntheticId(i + 1)) == tasks[i].id
  {
    AiIndexValues(tasks);
  }

  /**
   * A reference that is no synthetic id resolves by name, to the last task with that
   * name when names repeat.
   */
  lemma {:induction false} NameResolves(tasks: seq<Task>, users: seq<User>, i: nat)
    requires i < |tasks| && IsLastWithKey(tasks, TaskName, tasks[i].name, i)
    requires forall n :: 1 <= n <= |tasks| ==> tasks[i].name != SyntheticId(n)
    ensures ResolveTask(BuildIndexes(tasks, users), tasks[i].name) == tasks[i].id
  {
    if tasks[i].name in AiIndex(tasks) {
      AiIndexKeys(tasks, tasks[i].name);
    }
    LastWinsValue(tasks, TaskName, TaskId, tasks[i].name, i);
  }

  /** A display name resolves to the last user with that name. */
  lemma {:induction false} UserResolves(users: seq<User>, tasks: seq<Task>, i: nat)
    requires i < |users| && IsLastWithKey(users, UserName, users[i].name, i)
    ensures ResolveUser(BuildIndexes(tasks, users), users[i].name) == users[i].id
  {
    LastWinsValue(users, UserName, UserId, users[i].name, i);
  }

  /**
   * An entry that names task i by its synthetic id and a user known to the task store
   * by a name no later user shares is assigned, to that user.
   */
  lemma {:induction false} EntryAssigned(m: Record, tasks: seq<Task>, users: seq<User>, userIds: set<string>, i: nat, u: nat)
    requires i < |tasks| && tasks[i].id != ""
    requires TaskIdKey in m && m[TaskIdKey] == Str(SyntheticId(i + 1))
    requires MemberNameKey in m && u < |users| && m[MemberNameKey] == Str(users[u].name)
    requires IsLastWithKey(users, UserName, users[u].name, u)
    requires users[u].id != "" && users[u].id in userIds
    ensures Outcome(m, BuildIndexes(tasks, users), userIds).isAssigned
    ensures Outcome(m, BuildIndexes(tasks, users), userIds).userId == users[u].id
  {
    SyntheticIdResolves(tasks, users, i);
    UserResolves(users, tasks, u);
  }

  /** The rows after applying entries keep their ids, one for one. */
  lemma {:induction false} AppliedRowsKeepIds(rows: seq<Task>, entries: seq<Record>, ix: Indexes, userIds: set<string>)
    ensures |AppliedRows(rows, entries, ix, userIds)| == |rows|
    ensures forall j :: 0 <= j < |rows| ==> AppliedRows(rows, entries, ix, userIds)[j].id == rows[j].id
    decreases |entries|
  {
    if |entries| > 0 {
      var n := |entries|;
      AppliedRowsKeepIds(rows, entries[..n - 1], ix, userIds);
      var prev := AppliedRows(rows, entries[..n - 1], ix, userIds);
      var m := entries[n - 1];
      TasksService.UpdateKeepsIds(prev, ResolveTask(ix, TaskRef(m)), TasksService.AssignUser(Outcome(m, ix, userIds).userId));
    }
  }

  // ------------------------------------------------------------ applying a mapping

  /** The `userMap` loop: display name to user id, the last user with a name winning. */
  method BuildUserMap(users: seq<User>) returns (userMap: map<string, string>)
    ensures userMap == LastWins(users, UserName, UserId)
  {
    userMap := map[];
    for i := 0 to |users|
      invariant userMap == LastWins(users[..i], UserName, UserId)
    {
      assert users[..i + 1][..i] == users[..i];
      userMap := userMap[users[i].name := users[i].id];
    }
    assert users[..|users|] == users;
  }

  /** The `aiTaskIdToDbId` and `nameToDbId` loop, numbering tasks with a counter from 1. */
  method BuildTaskMaps(tasks: seq<Task>) returns (aiTaskIdToDbId: map<string, string>, nameToDbId: map<string, string>)
    ensures aiTaskIdToDbId == AiIndex(tasks)
    ensures nameToDbId == LastWins(tasks, TaskName, TaskId)
  {
    var taskCounter := 1;
    aiTaskIdToDbId := map[];
    nameToDbId := map[];
    for i := 0 to |tasks|
      invariant taskCounter == i + 1
      invariant aiTaskIdToDbId == AiIndex(tasks[..i])
      invariant nameToDbId == LastWins(tasks[..i], TaskName, TaskId)
    {
      assert tasks[..i + 1][..i] == tasks[..i];
      var aiTaskId := SyntheticId(taskCounter);
      taskCounter := taskCounter + 1;
      aiTaskIdToDbId := aiTaskIdToDbId[aiTaskId := tasks[i].id];
      nameToDbId := nameToDbId[tasks[i].name := tasks[i].id];
    }
    assert tasks[..|tasks|] == tasks;
  }

  /** Every task id the tables can resolve to is the id of one of the rows. */
  ghost predicate ResolvesInto(ix: Indexes, rows: seq<Task>)
  {
    forall ref :: ResolveTask(ix, ref) != "" ==> ResolveTask(ix, ref) in TasksService.Ids(rows)
  }

  /** The tables built from a project's tasks resolve into any rows that hold those tasks. */
  lemma {:induction false} BuiltIndexesResolveInto(tasks: seq<Task>, users: seq<User>, rows: seq<Task>)
    requires forall t :: t in tasks ==> t in rows
    ensures ResolvesInto(BuildIndexes(tasks, users), rows)
  {
    forall ref | ResolveTask(BuildIndexes(tasks, users), ref) != ""
      ensures ResolveTask(BuildIndexes(tasks, users), ref) in TasksService.Ids(rows)
    {
      ResolvedIsProjectTask(tasks, users, ref);
      var k :| 0 <= k < |tasks| && tasks[k].id == ResolveTask(BuildIndexes(tasks, users), ref);
      assert tasks[k] in tasks;
      var j :| 0 <= j < |rows| && rows[j] == tasks[k];
    }
  }

  /** Rows with the same ids, position by position, are resolved into alike. */
  lemma {:induction false} SameIdsResolveInto(ix: Indexes, rows: seq<Task>, rows1: seq<Task>)
    requires ResolvesInto(ix, rows)
    requires |rows1| == |rows| && forall j :: 0 <= j < |rows| ==> rows1[j].id == rows[j].id
    ensures ResolvesInto(ix, rows1)
  {
    forall ref | ResolveTask(ix, ref) != "" ensures ResolveTask(ix, ref) in TasksService.Ids(rows1) {
      var j :| 0 <= j < |rows| && rows[j].id == ResolveTask(ix, ref);
      assert rows1[j].id == rows[j].id;
    }
  }

  /**
   * One pass of the entry loop: resolve the task, then the user, then call
   * `assignToUser`, whose failure is recorded with its message.
   */
  method ApplyEntry(repo: TasksService.TaskRepository, ix: Indexes, m: Record)
    returns (res: AssignmentResult)
    requires repo.Valid() && ResolvesInto(ix, repo.rows)
    modifies repo`rows
    ensures repo.Valid()
    ensures res == Outcome(m, ix, repo.userIds)
    ensures repo.rows == if res.isAssigned
      then TasksService.UpdateWhere(old(repo.rows), ResolveTask(ix, TaskRef(m)), TasksService.AssignUser(res.userId))
      else old(repo.rows)
  {
    var taskId := TextField(m, TaskIdKey, LegacyTaskIdKey);
    var memberName := TextField(m, MemberNameKey, LegacyMemberNameKey);
    var userId := if memberName in ix.userByName then ix.userByName[memberName] else "";
    var dbTaskId := if taskId in ix.byAiId then ix.byAiId[taskId] else "";
    if dbTaskId == "" && taskId in ix.byName {
      dbTaskId := ix.byName[taskId];
    }
    assert dbTaskId == ResolveTask(ix, TaskRef(m)) && userId == ResolveUser(ix, MemberName(m));
    if dbTaskId == "" {
      return AssignmentResult(taskId, "", memberName, false, Some(TaskNotInProject(taskId)));
    }
    if userId == "" {
      return AssignmentResult(taskId, "", memberName, false, Some(UserNotInDatabase(memberName)));
    }
    assert dbTaskId in TasksService.Ids(repo.rows);
    var r := repo.AssignToUser(dbTaskId, userId);
    if r.Ok? {
      res := AssignmentResult(taskId, userId, memberName, true, None);
    } else {
      res := AssignmentResult(taskId, userId, memberName, false, Some(r.message));
    }
  }

  /**
   * `applyAITaskAssignments`: one report line per entry, in entry order, and the
   * store's rows after assigning each resolved pair in turn. A failure of one entry
   * does not stop the others.
   */
  method ApplyAITaskAssignments(repo: TasksService.TaskRepository, users: seq<User>, projectId: string, mappings: seq<Record>)
    returns (results: seq<AssignmentResult>)
    requires repo.Valid()
    modifies repo`rows
    ensures repo.Valid()
    ensures results == Outcomes(mappings, BuildIndexes(old(repo.FindByProject(projectId)), users), repo.userIds)
    ensures repo.rows == AppliedRows(old(repo.rows), mappings, BuildIndexes(old(repo.FindByProject(projectId)), users), repo.userIds)
  {
    var userMap := BuildUserMap(users);
    var tasks := repo.FindByProject(projectId);
    var aiTaskIdToDbId, nameToDbId := BuildTaskMaps(tasks);
    var ix := Indexes(aiTaskIdToDbId, nameToDbId, userMap);
    assert ix == BuildIndexes(tasks, users);

    ghost var rows0, userIds := repo.rows, repo.userIds;
    BuiltIndexesResolveInto(tasks, users, rows0);
    results := [];
    for i := 0 to |mappings|
      invariant repo.Valid() && repo.userIds == userIds
      invariant results == Outcomes(mappings[..i], ix, userIds)
      invariant repo.rows == AppliedRows(rows0, mappings[..i], ix, userIds)
    {
      assert mappings[..i + 1][..i] == mappings[..i];
      AppliedRowsKeepIds(rows0, mappings[..i], ix, userIds);
      SameIdsResolveInto(ix, rows0, repo.rows);
      var res := ApplyEntry(repo, ix, mappings[i]);
      results := results + [res];
    }
    assert mappings[..|mappings|] == mappings;
  }

  // ------------------------------------------------------------ the task document

  /** The label of a status: fixed labels for the five known statuses, else the status capitalised. */
  function FormatStatusName(status: string): (r: string)
    ensures |r| == 0 <==> |status| == 0
    ensures status == Todo ==> r == "To Do"
    ensures status == InProgress ==> r == "In Progress"
    ensures status == Review ==> r == "Review"
    ensures status == Done ==> r == "Completed"
    ensures status == Cancelled ==> r == "Cancelled"
    ensures status !in {Todo, InProgress, Review, Done, Cancelled} && |status| > 0 ==> |r| == |status| && r[1..] == status[1..]
    ensures status !in {Todo, InProgress, Review, Done, Cancelled} && |status| > 0 ==> r[0] == Text.UpperChar(status[0])
  {
    if status == Todo then "To Do"
    else if status == InProgress then "In Progress"
    else if status == Review then "Review"
    else if status == Done then "Completed"
    else if status == Cancelled then "Cancelled"
    else if |status| == 0 then ""
    else [Text.UpperChar(status[0])] + status[1..]
  }

  /** The status a task is grouped under: an empty status counts as `todo`. */
  function StatusKey(t: Task): string
  {
    if t.status == "" then Todo else t.status
  }

  datatype TaskGroup = TaskGroup(status: string, tasks: seq<Task>)

  /** The tasks of each group, group by group. */
  function TasksOf(groups: seq<TaskGroup>): (r: seq<seq<Task>>)
    ensures |r| == |groups| && forall j :: 0 <= j < |groups| ==> r[j] == groups[j].tasks
  {
    seq(|groups|, j requires 0 <= j < |groups| => groups[j].tasks)
  }

  /** The groups of `groupTasksByStatus`: one per status in first-seen order, labelled, tasks in list order. */
  function StatusGroups(tasks: seq<Task>): (r: seq<TaskGroup>)
    ensures |r| == |OrderedGroups.FirstSeen(tasks, StatusKey)|
    ensures TasksOf(r) == OrderedGroups.Grouped(tasks, StatusKey)
    ensures forall j :: 0 <= j < |r| ==> r[j].status == FormatStatusName(OrderedGroups.FirstSeen(tasks, StatusKey)[j])
  {
    var ks := OrderedGroups.FirstSeen(tasks, StatusKey);
    var r := seq(|ks|, j requires 0 <= j < |ks| => TaskGroup(FormatStatusName(ks[j]), OrderedGroups.Bucket(tasks, StatusKey, ks[j])));
    assert TasksOf(r) == OrderedGroups.Grouped(tasks, StatusKey);
    r
  }

  /** Grouping loses and invents no task, and opens no empty group. */
  lemma {:induction false} StatusGroupsPartition(tasks: seq<Task>)
    ensures multiset(OrderedGroups.Concat(TasksOf(StatusGroups(tasks)))) == multiset(tasks)
    ensures forall j :: 0 <= j < |StatusGroups(tasks)| ==> |StatusGroups(tasks)[j].tasks| > 0
  {
    OrderedGroups.GroupedIsPermutation(tasks, StatusKey);
    OrderedGroups.GroupedBucketsNonEmpty(tasks, StatusKey);
    assert forall j :: 0 <= j < |StatusGroups(tasks)| ==> StatusGroups(tasks)[j].tasks == TasksOf(StatusGroups(tasks))[j];
  }

  /** `groupTasksByStatus`: buckets filled in one pass, a bucket opened when its status is first met. */
  method GroupTasksByStatus(tasks: seq<Task>) returns (groups: seq<TaskGroup>)
    ensures groups == StatusGroups(tasks)
  {
    var keys, buckets := OrderedGroups.GroupInOrder(tasks, StatusKey);
    groups := seq(|keys|, j requires 0 <= j < |keys| => TaskGroup(FormatStatusName(keys[j]), buckets[keys[j]]));
  }

  datatype TaskEntry = TaskEntry(taskId: string, name: string)
  datatype TaskStep = TaskStep(step: string, tasks: seq<TaskEntry>)

  /** The document written when the project has no tasks. */
  const SetupDocument: seq<TaskStep> := [TaskStep("Project Setup", [
    TaskEntry("TASK01", "Create project structure"),
    TaskEntry("TASK02", "Set up development environment"),
    TaskEntry("TASK03", "Initialize version control"),
    TaskEntry("TASK04", "Configure build tools")])]

  /** One group as a step whose tasks are numbered from `first` on. */
  function NumberedStep(g: TaskGroup, first: nat): (r: TaskStep)
    ensures r.step == g.status && |r.tasks| == |g.tasks|
    ensures forall k :: 0 <= k < |g.tasks| ==> r.tasks[k] == TaskEntry(SyntheticId(first + k), g.tasks[k].name)
  {
    TaskStep(g.status, seq(|g.tasks|, k requires 0 <= k < |g.tasks| => TaskEntry(SyntheticId(first + k), g.tasks[k].name)))
  }

  /** Each group as a step; the counter runs on across groups, so task k of group j gets number Offset(j) + k + 1. */
  function NumberedSteps(groups: seq<TaskGroup>): (r: seq<TaskStep>)
    ensures |r| == |groups|
    ensures forall j :: 0 <= j < |groups| ==> r[j] == NumberedStep(groups[j], OrderedGroups.Offset(TasksOf(groups), j) + 1)
  {
    var ts := TasksOf(groups);
    seq(|groups|, j requires 0 <= j < |groups| => NumberedStep(groups[j], OrderedGroups.Offset(ts, j) + 1))
  }

  /** The inner `map`: the counter, starting at `taskCounter`, numbers the group's tasks in order. */
  method NumberTasks(g: TaskGroup, taskCounter: nat) returns (entries: seq<TaskEntry>, next: nat)
    ensures entries == NumberedStep(g, taskCounter).tasks
    ensures next == taskCounter + |g.tasks|
  {
    next := taskCounter;
    entries := [];
    for k := 0 to |g.tasks|
      invariant next == taskCounter + k
      invariant |entries| == k
      invariant forall q :: 0 <= q < k ==> entries[q] == TaskEntry(SyntheticId(taskCounter + q), g.tasks[q].name)
    {
      entries := entries + [TaskEntry(SyntheticId(next), g.tasks[k].name)];
      next := next + 1;
    }
    ghost var want := NumberedStep(g, taskCounter).tasks;
    assert forall q :: 0 <= q < |want| ==> want[q] == entries[q];
  }

  /** The outer `map`, with one `taskCounter` shared by all groups. */
  method NumberSteps(groups: seq<TaskGroup>) returns (steps: seq<TaskStep>)
    ensures steps == NumberedSteps(groups)
  {
    ghost var ts := TasksOf(groups);
    ghost var want := NumberedSteps(groups);
    var taskCounter := 1;
    steps := [];
    for j := 0 to |groups|
      invariant taskCounter == OrderedGroups.Offset(ts, j) + 1
      invariant steps == want[..j]
    {
      var entries;
      entries, taskCounter := NumberTasks(groups[j], taskCounter);
      OrderedGroups.OffsetNext(ts, j);
      assert TaskStep(groups[j].status, entries) == want[j];
      steps := steps + [TaskStep(groups[j].status, entries)];
      assert want[..j + 1] == want[..j] + [want[j]];
    }
    assert want[..|groups|] == want;
  }

  /**
   * `getTaskFileContent`: NotFound for an unknown project, the setup document for a
   * project without tasks, and otherwise the numbered status groups.
   */
  method GetTaskFileContent(store: ProjectsService.ProjectStore, repo: TasksService.TaskRepository, projectId: string)
    returns (r: Result<seq<TaskStep>>)
    ensures store.FindOne(projectId).Err? ==> r == Err(ProjectsService.ProjectNotFound(projectId))
    ensures store.FindOne(projectId).Ok? && |repo.FindByProject(projectId)| == 0 ==> r == Ok(SetupDocument)
    ensures store.FindOne(projectId).Ok? && |repo.FindByProject(projectId)| > 0 ==>
      r == Ok(NumberedSteps(StatusGroups(repo.FindByProject(projectId))))
  {
    var project := store.FindOne(projectId);
    if project.Err? {
      return Err(project.message);
    }
    var tasks := repo.FindByProject(projectId);
    if |tasks| == 0 {
      return Ok(SetupDocument);
    }
    var taskGroups := GroupTasksByStatus(tasks);
    var steps := NumberSteps(taskGroups);
    r := Ok(steps);
  }

  /**
   * When each status occupies one run of the list, the id the document gives a task
   * is the id `applyAITaskAssignments` resolves to that same task.
   */
  lemma {:induction false} DocumentIdsResolve(tasks: seq<Task>, users: seq<User>, j: nat, k: nat)
    requires OrderedGroups.Contiguous(tasks, StatusKey)
    requires j < |StatusGroups(tasks)| && k < |StatusGroups(tasks)[j].tasks|
    requires StatusGroups(tasks)[j].tasks[k].id != ""
    ensures ResolveTask(BuildIndexes(tasks, users), NumberedSteps(StatusGroups(tasks))[j].tasks[k].taskId)
            == StatusGroups(tasks)[j].tasks[k].id
  {
    var groups := StatusGroups(tasks);
    var p := OrderedGroups.Offset(TasksOf(groups), j) + k;
    GroupTaskAt(tasks, groups, j, k);
    StepIdAt(groups, j, k);
    SyntheticIdResolves(tasks, users, p);
  }

  /** Task k of group j sits at the group's offset plus k in a list whose statuses each form one run. */
  lemma GroupTaskAt(tasks: seq<Task>, groups: seq<TaskGroup>, j: nat, k: nat)
    requires OrderedGroups.Contiguous(tasks, StatusKey)
    requires TasksOf(groups) == OrderedGroups.Grouped(tasks, StatusKey)
    requires j < |groups| && k < |groups[j].tasks|
    ensures var p := OrderedGroups.Offset(TasksOf(groups), j) + k;
            p < |tasks| && tasks[p] == groups[j].tasks[k]
  {
    assert TasksOf(groups)[j] == groups[j].tasks;
    OrderedGroups.ContiguousGroupAt(tasks, StatusKey, j, k);
  }

  /** The document numbers task k of group j with the tasks before its group plus k + 1. */
  lemma StepIdAt(groups: seq<TaskGroup>, j: nat, k: nat)
    requires j < |groups| && k < |groups[j].tasks|
    ensures NumberedSteps(groups)[j].tasks[k].taskId == SyntheticId(OrderedGroups.Offset(TasksOf(groups), j) + k + 1)
  {
    var step := NumberedSteps(groups)[j];
    assert step == NumberedStep(groups[j], OrderedGroups.Offset(TasksOf(groups), j) + 1);
  }

  /** The counter 2 is written `TASK02`. */
  lemma {:induction false} SecondSyntheticId()
    ensures SyntheticId(2) == "TASK02"
  {
    assert Text.NatToString(2) == ['2'];
  }

  /** Statuses todo, done, todo: two keys, in the order todo, done. */
  lemma {:induction false} InterleavedKeys(a: Task, b: Task, c: Task)
    requires a.status == Todo && b.status == Done && c.status == Todo
    ensures OrderedGroups.FirstSeen([a, b, c], StatusKey) == [Todo, Done]
  {
    var tasks := [a, b, c];
    assert tasks[..2] == [a, b] && [a, b][..1] == [a] && [a][..0] == [];
    assert OrderedGroups.FirstSeen([a], StatusKey) == [Todo];
    assert OrderedGroups.FirstSeen([a, b], StatusKey) == [Todo, Done];
  }

  /** Statuses todo, done, todo: the todo bucket holds the first and third task, the done bucket the second. */
  lemma {:induction false} InterleavedBuckets(a: Task, b: Task, c: Task)
    requires a.status == Todo && b.status == Done && c.status == Todo
    ensures OrderedGroups.Bucket([a, b, c], StatusKey, Todo) == [a, c]
    ensures OrderedGroups.Bucket([a, b, c], StatusKey, Done) == [b]
  {
    var tasks := [a, b, c];
    assert tasks[..2] == [a, b] && [a, b][..1] == [a] && [a][..0] == [];
    assert OrderedGroups.Bucket([a], StatusKey, Todo) == [a];
    assert OrderedGroups.Bucket([a, b], StatusKey, Todo) == [a];
    assert OrderedGroups.Bucket([a], StatusKey, Done) == [];
    assert OrderedGroups.Bucket([a, b], StatusKey, Done) == [b];
  }

  /** Statuses todo, done, todo: the first and third task share the first group. */
  lemma {:induction false} InterleavedGroups(a: Task, b: Task, c: Task)
    requires a.status == Todo && b.status == Done && c.status == Todo
    ensures OrderedGroups.FirstSeen([a, b, c], StatusKey) == [Todo, Done]
    ensures OrderedGroups.Grouped([a, b, c], StatusKey) == [[a, c], [b]]
  {
    InterleavedKeys(a, b, c);
    InterleavedBuckets(a, b, c);
    var g := OrderedGroups.Grouped([a, b, c], StatusKey);
    assert |g| == 2 && g[0] == [a, c] && g[1] == [b];
  }

  /**
   * When statuses interleave, the document numbers tasks in group order while entries
   * are resolved in list order: with statuses todo, done, todo the document shows the
   * third task as TASK02, but TASK02 resolves to the second task.
   */
  lemma {:induction false} InterleavedStatusesRenumber(a: Task, b: Task, c: Task, users: seq<User>)
    requires a.status == Todo && b.status == Done && c.status == Todo && b.id != ""
    ensures StatusGroups([a, b, c]) == [TaskGroup("To Do", [a, c]), TaskGroup("Completed", [b])]
    ensures NumberedSteps(StatusGroups([a, b, c]))[0].tasks[1] == TaskEntry("TASK02", c.name)
    ensures ResolveTask(BuildIndexes([a, b, c], users), "TASK02") == b.id
  {
    var tasks := [a, b, c];
    InterleavedGroups(a, b, c);
    var groups := StatusGroups(tasks);
    assert TasksOf(groups) == [[a, c], [b]];
    assert groups == [TaskGroup("To Do", [a, c]), TaskGroup("Completed", [b])];
    assert OrderedGroups.Offset(TasksOf(groups), 0) == 0;
    SecondSyntheticId();
    SyntheticIdResolves(tasks, users, 1);
  }

  /**
   * The tables as they would have to be built for the document's ids to mean
   * what the document shows: synthetic ids counted over the tasks in group
   * order, the order `getTaskFileContent` numbers them in; names and users as before.
   */
  function DocumentOrderIndexes(tasks: seq<Task>, users: seq<User>): Indexes
  {
    Indexes(AiIndex(OrderedGroups.Concat(TasksOf(StatusGroups(tasks)))),
            LastWins(tasks, TaskName, TaskId), LastWins(users, UserName, UserId))
  }

  /**
   * With the ids counted in group order, every id of the task document resolves
   * back to the task it was written for, whatever the order of the statuses.
   */
  lemma {:induction false} DocumentIdsResolveInDocumentOrder(tasks: seq<Task>, users: seq<User>, j: nat, k: nat)
    requires j < |StatusGroups(tasks)| && k < |StatusGroups(tasks)[j].tasks|
    requires StatusGroups(tasks)[j].tasks[k].id != ""
    ensures ResolveTask(DocumentOrderIndexes(tasks, users), NumberedSteps(StatusGroups(tasks))[j].tasks[k].taskId)
            == StatusGroups(tasks)[j].tasks[k].id
  {
    StepResolves(StatusGroups(tasks), LastWins(tasks, TaskName, TaskId), LastWins(users, UserName, UserId), j, k);
  }

  /** In tables numbering the groups' tasks end to end, the id of task k of group j resolves to it. */
  lemma StepResolves(groups: seq<TaskGroup>, byName: map<string, string>, userByName: map<string, string>, j: nat, k: nat)
    requires j < |groups| && k < |groups[j].tasks| && groups[j].tasks[k].id != ""
    ensures ResolveTask(Indexes(AiIndex(OrderedGroups.Concat(TasksOf(groups))), byName, userByName),
                        NumberedSteps(groups)[j].tasks[k].taskId)
            == groups[j].tasks[k].id
  {
    var ts := TasksOf(groups);
    var p := OrderedGroups.Offset(ts, j) + k;
    assert ts[j] == groups[j].tasks;
    OrderedGroups.ConcatAt(ts, j, k);
    StepIdAt(groups, j, k);
    IndexResolves(OrderedGroups.Concat(ts), byName, userByName, p, groups[j].tasks[k], NumberedSteps(groups)[j].tasks[k].taskId);
  }

  /** In tables whose synthetic ids number `order`, the id of position i resolves to the task there. */
  lemma IndexResolves(order: seq<Task>, byName: map<string, string>, userByName: map<string, string>, i: nat, t: Task, id: string)
    requires i < |order| && order[i] == t && t.id != "" && id == SyntheticId(i + 1)
    ensures ResolveTask(Indexes(AiIndex(order), byName, userByName), id) == t.id
  {
    AiIndexValues(order);
  }

  // ------------------------------------------------------------ the user document

  /** One entry of the user document; every field is text. */
  datatype UserRow = UserRow(
    id: string,
    name: string,
    department: string,
    position: string,
    experience: string,
    projectsDone: string,
    avgTaskCompletion: string,
    deadlineMisses: string)

  /** JavaScript's `s || fallback` on a string. */
  function OrDefault(s: string, fallback: string): (r: string)
    ensures s != "" ==> r == s
    ensures s == "" ==> r == fallback
  {
    if s == "" then fallback else s
  }

  /** `n?.toString() || '0'`: the decimal text of a present count, else `0`. */
  function CountText(n: Option<int>): (r: string)
    ensures r != ""
    ensures n.Some? && n.value >= 0 ==> Text.IsDigits(r) && Text.ParseDigits(r) == n.value
    ensures n.None? ==> r == "0"
  {
    if n.Some? then
      if n.value >= 0 then Text.ParseNatToString(n.value); Text.IntToString(n.value) else Text.IntToString(n.value)
    else "0"
  }

  /** The entry for the user at `index`: the one-based position as id, empty fields replaced by defaults. */
  function UserRowOf(u: User, index: nat): (r: UserRow)
    ensures Text.IsDigits(r.id) && Text.ParseDigits(r.id) == index + 1
    ensures r.name == u.name
    ensures r.department != "" && r.position != "" && r.experience != ""
    ensures r.projectsDone != "" && r.avgTaskCompletion != "" && r.deadlineMisses != ""
    ensures u.department != "" ==> r.department == u.department
    ensures u.position != "" ==> r.position == u.position
    ensures u.experience != "" ==> r.experience == u.experience
    ensures u.avgTaskCompletion != "" ==> r.avgTaskCompletion == u.avgTaskCompletion
    ensures u.department == "" ==> r.department == "Development"
    ensures u.position == "" ==> r.position == "Developer"
    ensures u.experience == "" ==> r.experience == "1 years"
    ensures u.avgTaskCompletion == "" ==> r.avgTaskCompletion == "2 days (Medium)"
    ensures r.projectsDone == CountText(u.projectsDone) && r.deadlineMisses == CountText(u.deadlineMisses)
  {
    Text.ParseNatToString(index + 1);
    UserRow(
      Text.NatToString(index + 1),
      u.name,
      OrDefault(u.department, "Development"),
      OrDefault(u.position, "Developer"),
      OrDefault(u.experience, "1 years"),
      CountText(u.projectsDone),
      OrDefault(u.avgTaskCompletion, "2 days (Medium)"),
      CountText(u.deadlineMisses))
  }

  /** The user document: one entry per user, in order. */
  function UserDocument(users: seq<User>): (r: seq<UserRow>)
    ensures |r| == |users|
    ensures forall i :: 0 <= i < |users| ==> r[i] == UserRowOf(users[i], i)
  {
    seq(|users|, i requires 0 <= i < |users| => UserRowOf(users[i], i))
  }

  /** The users written: a project's members, or every user when it has none or no project is named. */
  function DocumentUsers(store: ProjectsService.ProjectStore, projectId: Option<string>): (r: Result<seq<User>>)
    reads store
    ensures r.Err? <==> Truthy(projectId) && projectId.value !in store.members
    ensures r.Err? ==> r.message == ProjectsService.ProjectNotFound(projectId.value)
    ensures r.Ok? && Truthy(projectId) && |store.members[projectId.value]| > 0 ==> r.value == store.members[projectId.value]
    ensures r.Ok? && !(Truthy(projectId) && |store.members[projectId.value]| > 0) ==> r.value == store.users
  {
    if Truthy(projectId) then
      match store.FindOne(projectId.value)
      case Err(msg) => Err(msg)
      case Ok(members) => if |members| > 0 then Ok(members) else Ok(store.users)
    else Ok(store.users)
  }

  /** `getUserFileContent`: the user document of the chosen users, or the project's NotFound. */
  function GetUserFileContent(store: ProjectsService.ProjectStore, projectId: Option<string>): (r: Result<seq<UserRow>>)
    reads store
    ensures r.Err? <==> DocumentUsers(store, projectId).Err?
    ensures r.Ok? ==> |r.value| == |DocumentUsers(store, projectId).value|
    ensures r.Ok? ==> forall i :: 0 <= i < |r.value| ==> r.value[i].name == DocumentUsers(store, projectId).value[i].name
    ensures r.Ok? ==> r.value == UserDocument(DocumentUsers(store, projectId).value)
  {
    match DocumentUsers(store, projectId)
    case Err(msg) => Err(msg)
    case Ok(users) => Ok(UserDocument(users))
  }
}
