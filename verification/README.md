# hackathon-chillthon core, modelled in Dafny

This project models the deterministic logic of a small task-management system.
The system has three parts: a NestJS back end with a React front end, a Django
site with attendance, users, tasks and logs, and Python scripts that ask a
language model to split a project's tasks among its members and read the
answer back. Databases are replaced by in-memory sequences and maps. Clocks
and random choices become parameters. The language model, the file system
and HTTP are left out. What remains is modelled file by file:

- **AI task assignment** (`AiTaskAssignment`, `OrderedGroups`, `Entities`).
  The back end writes a task document (tasks numbered `TASK01`, `TASK02`, …,
  grouped by status in first-seen order) and a user document. It then applies
  the model's `{taskId, MemberName}` pairs to the task store, one result per
  pair, in order. The store is a class whose methods change the task's
  assignee.
- **Reading the model's answer** (`MarkdownTables`, `MemberNames`,
  `UserTaskMapping`, `AiAnalysis`, `UploadedFile`). The Python scripts find
  pipe tables (section 4.10 of the GitHub Flavored Markdown specification),
  detect the delimiter row, clean member names, split multi-member cells,
  rename legacy JSON keys and turn an uploaded file into text lines.
- **Back-end services** (`TasksService`, `ProjectsService`,
  `SubtasksService`). Each is a repository class with the services'
  not-found checks, progress bounds, set-like member lists and sequential
  subtask positions.
- **Django views** (`Attendance`, `DashboardLogs`, `LogManager`,
  `TaskModel`, `Accounts`, `UserAdmin`, `Authentication`, `TaskTags`). These
  cover the attendance check-in/check-out state machine, log-line parsing and
  counting, `Task.save` timestamps, the guard order of user management and
  registration, and colour lookups.
- **Front-end helpers** (`CustomJs`, `ProjectDetail`, `ProjectList`,
  `TaskForm`, `ProjectForm`, `AiAssignmentResult`, `TeamMembers`,
  `TaskTable`):
  - `getCookie`, following the cookie string of section 4.2.1 of RFC 6265;
  - form validation;
  - page statistics;
  - filtering and sorting;
  - initials, badge labels and truncation.

`Common`, `Text` and `Seqs` hold the shared option and result types, string
functions (strip, split, join, case mapping, number formatting) and sequence
functions (filter, count, tally).

## Model

| member | source | states |
|---|---|---|
| AiTaskAssignment.TextField | hackathon-be/src/ai-task-assignment/ai-task-assignment.service.ts:215-225 | the text of the new key when it is a string, else of the legacy key when that is a string, else empty; a non-empty result always comes from one of the two keys |
| AiTaskAssignment.PaddedFirstDigit | hackathon-be/src/ai-task-assignment/ai-task-assignment.service.ts:208 | `padStart(2, '0')` pads exactly the one-digit counters, and leaves longer numbers unchanged |
| AiTaskAssignment.SyntheticIdInjective | hackathon-be/src/ai-task-assignment/ai-task-assignment.service.ts:204-211 | distinct counters give distinct `TASKnn` ids, including counters past 99 |
| AiTaskAssignment.LastWinsDomain | hackathon-be/src/ai-task-assignment/ai-task-assignment.service.ts:197-211 | a key is in a `Map` filled by `set` in a loop exactly when some element carries it |
| AiTaskAssignment.LastWinsValue | hackathon-be/src/ai-task-assignment/ai-task-assignment.service.ts:197-211 | a key maps to the value of the last element that carries it (duplicate names: the last one enumerated wins) |
| AiTaskAssignment.LastWinsHasLast | hackathon-be/src/ai-task-assignment/ai-task-assignment.service.ts:197-211 | every key in the map has a last element carrying it |
| AiTaskAssignment.AiIndexValues | hackathon-be/src/ai-task-assignment/ai-task-assignment.service.ts:204-209 | synthetic id `TASKn` maps to the n-th task in `findByProject` order, counting from 1 |
| AiTaskAssignment.AiIndexKeys | hackathon-be/src/ai-task-assignment/ai-task-assignment.service.ts:204-209 | the synthetic-id table holds no key except `TASK1` … `TASKn` for the project's n tasks |
| AiTaskAssignment.ResolveTask | hackathon-be/src/ai-task-assignment/ai-task-assignment.service.ts:229-232 | the synthetic id is tried first; the exact task name is the fallback, used only when the synthetic id does not resolve |
| AiTaskAssignment.Outcome | hackathon-be/src/ai-task-assignment/ai-task-assignment.service.ts:234-271 | one report line per entry: an unknown task gives `Task <ref> not found in project` and empty user id (checked before the user); a resolved task with an unknown member gives `User <name> not found in database` and empty user id; a resolved user the task store does not know gives the `User with ID <id> not found` message `assignToUser` throws, with that user id; the entry is assigned exactly when task and user resolve and the user exists in the task store |
| AiTaskAssignment.Outcomes | hackathon-be/src/ai-task-assignment/ai-task-assignment.service.ts:213-272 | exactly one report line per mapping entry, in input order |
| AiTaskAssignment.ResolvedIsProjectTask | hackathon-be/src/ai-task-assignment/ai-task-assignment.service.ts:202-232 | every task id an entry resolves to is the id of one of the project's tasks |
| AiTaskAssignment.SyntheticIdResolves | hackathon-be/src/ai-task-assignment/ai-task-assignment.service.ts:204-230 | the synthetic id of the i-th task resolves to that task |
| AiTaskAssignment.NameResolves | hackathon-be/src/ai-task-assignment/ai-task-assignment.service.ts:210-232 | a task name resolves to the last task with that name when no synthetic id equals it |
| AiTaskAssignment.UserResolves | hackathon-be/src/ai-task-assignment/ai-task-assignment.service.ts:197-227 | a display name resolves to the last user enumerated with that name |
| AiTaskAssignment.EntryAssigned | hackathon-be/src/ai-task-assignment/ai-task-assignment.service.ts:227-262 | an entry naming a task's synthetic id and a known user's display name is assigned to that user |
| AiTaskAssignment.AppliedRowsKeepIds | hackathon-be/src/ai-task-assignment/ai-task-assignment.service.ts:255-256 | applying entries only changes assignees: the rows and their ids stay as they were |
| AiTaskAssignment.BuildUserMap | hackathon-be/src/ai-task-assignment/ai-task-assignment.service.ts:196-200 | the `userMap` loop yields the last-wins table from display name to user id |
| AiTaskAssignment.BuildTaskMaps | hackathon-be/src/ai-task-assignment/ai-task-assignment.service.ts:202-211 | the task loop yields the synthetic-id table numbered from 1 and the last-wins name table |
| AiTaskAssignment.BuiltIndexesResolveInto | hackathon-be/src/ai-task-assignment/ai-task-assignment.service.ts:202-211 | the tables built from a project's tasks only resolve to ids of rows holding those tasks |
| AiTaskAssignment.SameIdsResolveInto | hackathon-be/src/ai-task-assignment/ai-task-assignment.service.ts:255-256 | assigning a task keeps every id, so what the tables resolve to is still a stored row |
| AiTaskAssignment.ApplyEntry | hackathon-be/src/ai-task-assignment/ai-task-assignment.service.ts:213-271 | one loop iteration: it reports `Outcome` for the entry and changes the store only when the entry is assigned, setting that task's assignee and nothing else |
| AiTaskAssignment.ApplyAITaskAssignments | hackathon-be/src/ai-task-assignment/ai-task-assignment.service.ts:189-273 | the report is one `Outcome` per entry in input order, against tables built once before the loop; the rows end as the entries applied one by one |
| AiTaskAssignment.FormatStatusName | hackathon-be/src/ai-task-assignment/ai-task-assignment.service.ts:371-383 | `todo`, `in_progress`, `review`, `done` and `cancelled` are labelled `To Do`, `In Progress`, `Review`, `Completed` and `Cancelled`; any other non-empty status is itself with its first character upper-cased; empty stays empty |
| AiTaskAssignment.TasksOf | hackathon-be/src/ai-task-assignment/ai-task-assignment.service.ts:362-365 | the task lists of the groups, one per group |
| AiTaskAssignment.StatusGroups | hackathon-be/src/ai-task-assignment/ai-task-assignment.service.ts:351-366 | one group per status in first-seen order (missing status counts as `todo`), labelled by `formatStatusName`, tasks in list order |
| AiTaskAssignment.StatusGroupsPartition | hackathon-be/src/ai-task-assignment/ai-task-assignment.service.ts:351-366 | grouping loses and invents no task (a permutation of the input), and no group is empty |
| AiTaskAssignment.GroupTasksByStatus | hackathon-be/src/ai-task-assignment/ai-task-assignment.service.ts:351-366 | the bucket loop yields exactly `StatusGroups` |
| AiTaskAssignment.NumberedStep | hackathon-be/src/ai-task-assignment/ai-task-assignment.service.ts:332-337 | a step keeps the group's label and numbers its tasks `TASKnn` consecutively from the counter |
| AiTaskAssignment.NumberedSteps | hackathon-be/src/ai-task-assignment/ai-task-assignment.service.ts:331-338 | the counter is shared across groups and never reset: task k of group j gets the number of tasks before group j plus k plus 1 |
| AiTaskAssignment.NumberTasks | hackathon-be/src/ai-task-assignment/ai-task-assignment.service.ts:334-337 | the inner `map` numbers a group's tasks from the counter and advances it by the group's size |
| AiTaskAssignment.NumberSteps | hackathon-be/src/ai-task-assignment/ai-task-assignment.service.ts:331-338 | the outer `map` yields exactly `NumberedSteps` |
| AiTaskAssignment.GetTaskFileContent | hackathon-be/src/ai-task-assignment/ai-task-assignment.service.ts:302-339 | an unknown project gives its NotFound error; no tasks gives the fixed `Project Setup` document with TASK01–TASK04; otherwise the numbered status groups |
| AiTaskAssignment.DocumentIdsResolve | hackathon-be/src/ai-task-assignment/ai-task-assignment.service.ts:204-338 | when grouping does not reorder the tasks, every id in the task document resolves back to its own task |
| AiTaskAssignment.SecondSyntheticId | hackathon-be/src/ai-task-assignment/ai-task-assignment.service.ts:208-335 | counter 2 is written `TASK02` |
| AiTaskAssignment.InterleavedKeys | hackathon-be/src/ai-task-assignment/ai-task-assignment.service.ts:351-360 | statuses todo, done, todo give the groups todo then done |
| AiTaskAssignment.InterleavedBuckets | hackathon-be/src/ai-task-assignment/ai-task-assignment.service.ts:354-360 | with statuses todo, done, todo the todo bucket holds the first and third task |
| AiTaskAssignment.InterleavedGroups | hackathon-be/src/ai-task-assignment/ai-task-assignment.service.ts:351-366 | with statuses todo, done, todo the first and third task share the first group |
| AiTaskAssignment.InterleavedStatusesRenumber | hackathon-be/src/ai-task-assignment/ai-task-assignment.service.ts:204-338 | counterexample: with statuses todo, done, todo the document calls the third task `TASK02`, but `applyAITaskAssignments` resolves `TASK02` to the second task |
| AiTaskAssignment.DocumentIdsResolveInDocumentOrder | hackathon-be/src/ai-task-assignment/ai-task-assignment.service.ts:328-336 | numbering the tasks in the order the document lists them, every task-document id resolves to the task written under it, whatever the order of statuses |
| AiTaskAssignment.OrDefault | hackathon-be/src/ai-task-assignment/ai-task-assignment.service.ts:421-425 | JavaScript `s \|\| fallback`: a non-empty string is kept, an empty one replaced |
| AiTaskAssignment.CountText | hackathon-be/src/ai-task-assignment/ai-task-assignment.service.ts:424-426 | `n?.toString() \|\| '0'`: the decimal text of a present count (it parses back to the count), else `0` |
| AiTaskAssignment.UserRowOf | hackathon-be/src/ai-task-assignment/ai-task-assignment.service.ts:418-427 | the id is the one-based position as text; the name is copied; an empty department, role, experience or workload becomes `Development`, `Developer`, `1 years` or `2 days (Medium)`, a non-empty one is kept; projects done and deadline misses are the numbers of their entries |
| AiTaskAssignment.UserDocument | hackathon-be/src/ai-task-assignment/ai-task-assignment.service.ts:418-427 | one entry per user, in order, entry i built with index i |
| AiTaskAssignment.DocumentUsers | hackathon-be/src/ai-task-assignment/ai-task-assignment.service.ts:390-415 | a named project that does not exist is NotFound; a project with members uses them; no members or no project uses all users |
| AiTaskAssignment.GetUserFileContent | hackathon-be/src/ai-task-assignment/ai-task-assignment.service.ts:388-429 | a found project gives exactly the document of its chosen users, one entry per user with their names in order; a missing project is NotFound |
| AiAnalysis.RenameKey | hackathon-be/ai_integration.py:287-290 | `mapping[key] = mapping.pop(legacy)`: nothing changes without the legacy key; otherwise the new key takes its value, the legacy key is gone and every other key is untouched |
| AiAnalysis.KeysDistinct | hackathon-be/ai_integration.py:287-290 | the two legacy keys and the two new keys are four different names, so the renamings do not interfere |
| AiAnalysis.NormaliseKeysSpec | hackathon-be/ai_integration.py:286-290 | after renaming, neither legacy key is present; each new key holds the legacy value when there was one (the legacy value overrides), else its own; other keys are unchanged |
| AiAnalysis.NormaliseKeysIdempotent | hackathon-be/ai_integration.py:286-290 | renaming an already renamed mapping changes nothing |
| AiAnalysis.LegacyPrecedenceDiffers | hackathon-be/ai_integration.py:287-288 | when both task-id keys are present the renaming keeps the legacy value, whereas the NestJS reader prefers `taskId` |
| AiAnalysis.NormaliseMappings | hackathon-be/ai_integration.py:286-290 | the loop renames every mapping in place and each ends as its renamed form |
| AiAnalysis.FirstWithName | hackathon-be/ai_integration.py:301 | `next(...)` finds the first user whose `Name` equals the name, and none exactly when no user has it |
| AiAnalysis.EntryForSpec | hackathon-be/ai_integration.py:297-309 | each entry is marked assigned, carries the mapping's `taskId` and `MemberName` (default `''`), and the `Id` of the first user with that name, or `''` when no user has it |
| AiAnalysis.BuildTaskAssignment | hackathon-be/ai_integration.py:295-309 | one `task_assignment` entry per mapping, in order |
| AiAnalysis.AssignFromMappings | hackathon-be/ai_integration.py:286-309 | renaming then building: each mapping is renamed in place and its entry's task id is the legacy value if present, else `taskId`, else `''` |
| AiAnalysis.NormalisedTaskId | hackathon-be/ai_integration.py:287-297 | the task id read after renaming is the legacy value if present, else `taskId`, else `''` |
| MarkdownTables.OpenPart | hackathon-be/ai_integration.py:20 | the part of a line where a match of the table pattern starts begins and ends with a pipe |
| MarkdownTables.RunLength | hackathon-be/ai_integration.py:20 | the run of lines continuing a match is exactly the leading lines that start and end with a pipe |
| MarkdownTables.RunsWellFormed | hackathon-be/ai_integration.py:20 | every match of the table pattern is a non-empty run of lines each starting and ending with a pipe |
| MarkdownTables.Tables | hackathon-be/ai_integration.py:20 | `re.findall` of the table pattern: every table found is non-empty and each of its lines starts and ends with a pipe |
| MarkdownTables.NoPipeNoTables | hackathon-be/ai_integration.py:20 | text without a pipe holds no table |
| MarkdownTables.SeparatorFirstCell | hackathon-be/ai_integration.py:27-111 | the first cell of a delimiter row (section 4.10 of the GitHub Flavored Markdown specification) is a dash cell |
| MarkdownTables.SeparatorHasDash | hackathon-be/ai_integration.py:27-111 | a delimiter row contains a dash, so a row of text cells is never taken for one |
| MarkdownTables.Cells | hackathon-be/ai_integration.py:31-38 | `[c.strip() for c in row.strip("\|").split("\|")]` yields at least one cell |
| MarkdownTables.KeepPipeLines | hackathon-be/ai_integration.py:22-102 | the kept lines are exactly those that start with a pipe after stripping, in order |
| MarkdownTables.FirstCharLines | hackathon-be/ai_integration.py:22 | `tbl[0]`, the single pipe that starts a match, splits into one line |
| MarkdownTables.FirstSeparator | hackathon-be/ai_integration.py:25-29 | the first delimiter row, or none when there is no delimiter row |
| MarkdownTables.MatchingRowsMembers | hackathon-be/ai_integration.py:36-40 | the data rows are exactly the later lines whose cell count equals the header's, as their cells |
| MarkdownTables.HeaderIndex | hackathon-be/ai_integration.py:30-34 | the header is the line before the first delimiter row, or line 0 |
| MarkdownTables.DataStart | hackathon-be/ai_integration.py:30-35 | data starts after the first delimiter row when a line precedes it, else at line 1 |
| MarkdownTables.TableFrameSpec | hackathon-be/ai_integration.py:22-48 | a frame read from one table has the header line's cells as columns, no repeated column and at least one row as wide as the header; fewer than two lines give nothing |
| MarkdownTables.ParseMarkdownTableAsWrittenIsNone | hackathon-be/ai_integration.py:20-49 | as written (`tbl[0]`), `parse_markdown_table` returns `None` for every text |
| MarkdownTables.ParseMarkdownTable | hackathon-be/ai_integration.py:18-49 | by `ParseMarkdownTableSpec` and `TableFrameSpec`: the frame of the first table that yields one, with the header cells as columns, or `None` exactly when no table does |
| MarkdownTables.ParseMarkdownTableSpec | hackathon-be/ai_integration.py:18-49 | as intended, the result is the frame of the first table that yields one, and `None` exactly when no table does |
| MarkdownTables.FindSeparator | hackathon-be/ai_integration.py:25-29 | the delimiter-row loop stops at the first delimiter row |
| MarkdownTables.CollectRows | hackathon-be/ai_integration.py:36-40 | the data loop appends exactly the rows of the header's width, in order |
| MarkdownTables.ReadTable | hackathon-be/ai_integration.py:22-48 | one pass of the table loop reads exactly `TableFrame` |
| MarkdownTables.ParseTables | hackathon-be/ai_integration.py:20-49 | the corrected loop over the matched tables returns the first frame |
| MarkdownTables.AssignmentTableAsWrittenIsNone | hackathon-be/model.py:359-376 | as written (`tbl[0]`), the assignment-table scan never finds a table, so `df_assign` stays `None` |
| MarkdownTables.AssignmentTableSpec | hackathon-be/model.py:359-375 | as intended, the scan finds a table exactly when some table has two lines and a header with `Task ID` and a member or user column; its rows have the header's width |
| MarkdownTables.ScanAssignmentTable | hackathon-be/model.py:359-375 | the corrected scan loop stops at the first table with the assignment header |
| MarkdownTables.OneColumnRuns | hackathon-be/ai_integration.py:20 | a one-column table (header, delimiter row, one data row) is matched as one table of its three lines |
| MarkdownTables.NoDashNotSeparator | hackathon-be/ai_integration.py:27 | a row without a dash is never a delimiter row |
| MarkdownTables.DashRowIsSeparator | hackathon-be/ai_integration.py:27 | `\|-\|` is a delimiter row |
| MarkdownTables.OneColumnSeparator | hackathon-be/ai_integration.py:25-29 | in the one-column table the delimiter row is line 1 |
| MarkdownTables.OneCellRow | hackathon-be/ai_integration.py:38 | a row `\|c\|` has the single cell `c` |
| MarkdownTables.OneColumnTableIsRead | hackathon-be/ai_integration.py:18-49 | the one-column table is read as header `h` and row `v` by the corrected parser, and not at all by the parser as written |
| MemberNames.FirstCloser | hackathon-be/ai_integration.py:59 | the first closing bracket, where the bracket pattern's match must end |
| MemberNames.RemoveBracketed | hackathon-be/ai_integration.py:59 | removing bracketed notes never adds a character, and text without an opening bracket is left unchanged |
| MemberNames.RemoveBracketedAvoids | hackathon-be/ai_integration.py:59 | a character the text does not contain does not appear after the removal |
| MemberNames.RemoveBracketedNote | hackathon-be/ai_integration.py:59 | text without an opening bracket, then an opening bracket, a note without a closing bracket and a closing bracket: the plain text is kept, the bracket, note and closing bracket are removed, and the removal goes on in the rest |
| MemberNames.NoBracketedNoteLeft | hackathon-be/ai_integration.py:59 | after the removal no opening bracket is followed by a closing one |
| MemberNames.UnitLength | hackathon-be/ai_integration.py:62 | the unit word a string ends with (`KN`, `năm`, `years`, `year`, any case), or none |
| MemberNames.DropUnitSuffix | hackathon-be/ai_integration.py:62 | the result is a prefix of the string, and it is the whole string exactly when no unit word ends it once trailing blanks and one closing parenthesis are set aside |
| MemberNames.UnitCut | hackathon-be/ai_integration.py:62 | the cut lies inside the string and is at its end exactly when no unit word ends it |
| MemberNames.DropUnitSuffixOf | hackathon-be/ai_integration.py:62 | a name not ending in a blank, then blanks, a unit word, blanks, an optional `)` and blanks, gives back exactly the name |
| MemberNames.CleanMemberName | hackathon-be/ai_integration.py:53-98 | by the lemmas `CleanMemberNameShape`, `OneWordNameKept` and `SeveralWordsFiltered`: blank input gives `""`, a result never holds `-`, `,` or `\|` and has no blank at either end, a one-word name is kept and longer names lose the role and number words |
| MemberNames.CleanMemberNameShape | hackathon-be/ai_integration.py:53-98 | `clean_member_name` gives `""` for empty or blank input; its result never contains `-`, `,` or `\|` and has no blank at either end |
| MemberNames.OneWordNameKept | hackathon-be/ai_integration.py:83-87 | a one-word first part that names no role and is not a unit or a number is returned unchanged |
| MemberNames.SeveralWordsFiltered | hackathon-be/ai_integration.py:89-96 | otherwise the result is the words of the first part that contain no role keyword and are not all digits, joined by spaces |
| MemberNames.FilterNameWords | hackathon-be/ai_integration.py:90-93 | the `filtered_words` loop keeps exactly the name words, in order |
| MemberNames.CleanMember | hackathon-be/ai_integration.py:53-98 | the cleaning with its loop computes `CleanMemberName` |
| UserTaskMapping.Header | hackathon-be/ai_integration.py:124 | one stripped, lower-cased header cell per cell of the header line |
| UserTaskMapping.LastIndexWhere | hackathon-be/ai_integration.py:130-134 | the last index satisfying the test, or none: what a loop overwriting its index ends with |
| UserTaskMapping.PartPairsShape | hackathon-be/ai_integration.py:158-164 | one part of a member cell yields at most one pair, with the row's task id and an alphabetic name, and yields one exactly when the cleaned part is alphabetic |
| UserTaskMapping.CellPairsShape | hackathon-be/ai_integration.py:157-164 | a member cell yields at most one pair per `;`, `,` or `/` part, each with the row's task id and an alphabetic name |
| UserTaskMapping.RowPairsShape | hackathon-be/ai_integration.py:141-164 | a data row yields pairs only when it is not a delimiter row and has both columns; each pair's task id is the stripped task cell |
| UserTaskMapping.RowsPairsShape | hackathon-be/ai_integration.py:141-164 | every pair from the data rows has a non-empty task id and a purely alphabetic name |
| UserTaskMapping.TableMappingShape | hackathon-be/ai_integration.py:101-164 | every pair a table yields has a non-empty task id and a purely alphabetic name, so names with spaces are dropped |
| UserTaskMapping.ExtractMapping | hackathon-be/ai_integration.py:100-170 | by `ExtractMappingSpec` and `TableMappingShape`: the pairs of the first table that yields any, each with a non-empty task id and an alphabetic name, or `None` exactly when no table yields a pair |
| UserTaskMapping.ExtractMappingSpec | hackathon-be/ai_integration.py:100-170 | the result is the pairs of the first table that yields any, non-empty and well formed; `None` exactly when no table yields a pair |
| UserTaskMapping.PairsNeedBothColumns | hackathon-be/ai_integration.py:127-137 | a table yields pairs only when it has two lines and its header has both a task-id column and a member-name column |
| UserTaskMapping.RowPairsBound | hackathon-be/ai_integration.py:157-164 | a row yields at most as many pairs as its member cell has parts |
| UserTaskMapping.FindColumns | hackathon-be/ai_integration.py:127-134 | the column loop ends with the last task-id column and the last member column that is not a task-id column |
| UserTaskMapping.ReadCell | hackathon-be/ai_integration.py:157-164 | the loop over a cell's parts computes `CellPairs` |
| UserTaskMapping.ReadRow | hackathon-be/ai_integration.py:142-164 | one pass of the data-row loop computes `RowPairs` |
| UserTaskMapping.ReadRows | hackathon-be/ai_integration.py:141-164 | the data-row loop computes `RowsPairs` |
| UserTaskMapping.ScanTable | hackathon-be/ai_integration.py:102-164 | one pass of the table loop computes `TableMapping` |
| UserTaskMapping.ExtractMappingUserTask | hackathon-be/ai_integration.py:51-170 | `extract_mapping_user_task` with its loops computes `ExtractMapping` |
| UploadedFile.RenderRow | hackathon-be/model.py:28 | a row renders as its first cell, plus `" - "` and the second cell when there is one; a row without cells raises (`row[0]`) |
| UploadedFile.ReadFileUploaded | hackathon-be/model.py:22-51 | by `ReadFileUploadedDispatch`, `JsonNeverRaises` and `ObjectFrameChoice`: nothing is read without a file or from a name that is neither `.csv` nor `.json`, JSON errors give `(None, None)`, and the tasks key wins over the members key |
| UploadedFile.ReadFileUploadedDispatch | hackathon-be/model.py:22-51 | no file, and any name whose lower-cased form ends in neither `.csv` nor `.json`, give `(None, None)`; a frame is only read from those two kinds |
| UploadedFile.JsonNeverRaises | hackathon-be/model.py:30-48 | the JSON branch catches every error as `(None, None)`; it falls through to a bare `None` exactly for a document that is neither a list nor an object |
| UploadedFile.ObjectFrameChoice | hackathon-be/model.py:37-43 | for a JSON object the tasks key wins over the members key, and the whole object is read when neither is present |
| UploadedFile.FrameTextLines | hackathon-be/model.py:28-29 | the text's lines are exactly the rendered rows that are not blank, in order: at most one per row, none blank |
| UploadedFile.KeptLinesAvoid | hackathon-be/model.py:28-29 | a character that no cell holds (other than space and dash) appears in no kept line |
| UploadedFile.RenderedAvoids | hackathon-be/model.py:28 | a rendered row holds only characters from its cells and the separator |
| UploadedFile.RenderedStartsWithFirstCell | hackathon-be/model.py:28 | a rendered row is its first cell followed by `" - "` and the second cell, or by nothing for a one-cell row |
| TasksService.FindIn | hackathon-be/src/tasks/tasks.service.ts:33-42 | the row found has the requested id; NotFound with the service's message exactly when no row has it |
| TasksService.UpdateWhere | hackathon-be/src/tasks/tasks.service.ts:131 | a repository update keeps the number of rows |
| TasksService.UpdateWhereSpec | hackathon-be/src/tasks/tasks.service.ts:131 | a repository update changes each row with the id and leaves every other row as it was |
| TasksService.FindAfterUpdate | hackathon-be/src/tasks/tasks.service.ts:145-146 | reading a task back after an update gives the old task with the change applied, and a missing task stays NotFound |
| TasksService.UpdateKeepsIds | hackathon-be/src/tasks/tasks.service.ts:131 | an update never changes an id |
| TasksService.SeedDifficulty | hackathon-be/src/tasks/tasks.service.ts:213-217 | by `SeedDifficultySpec`: never very hard, and only `Low` and `High` leave medium |
| TasksService.SeedDifficultySpec | hackathon-be/src/tasks/tasks.service.ts:213-217 | seeding never makes a very hard task; only Low and High leave medium |
| TasksService.SeedPriority | hackathon-be/src/tasks/tasks.service.ts:205-211 | by `SeedPriorityMonotone`: the priority table never lowers the priority as the score rises |
| TasksService.SeedPriorityMonotone | hackathon-be/src/tasks/tasks.service.ts:205-211 | a higher priority score never gives a lower priority |
| TasksService.InDepartment | hackathon-be/src/tasks/tasks.service.ts:191-197 | a user is in a department's list exactly when it is a table user of that department; the list is empty exactly when nobody is in that department |
| TasksService.SeedPool | hackathon-be/src/tasks/tasks.service.ts:219-234 | the pool is all Backend users when the main skill names Backend and there are some, otherwise all Frontend users likewise, otherwise all AI users likewise, otherwise the whole users table; it is never empty when users exist |
| TasksService.SeedTask | hackathon-be/src/tasks/tasks.service.ts:236-250 | a seeded task has the record's name and explanation, priority and difficulty from the two tables, status to-do, no progress, 40, 20 or 8 hours for a Large, Medium or other workload, the seed project, and an assignee from the pool exactly when there are users |
| TasksService.SeededTasks | hackathon-be/src/tasks/tasks.service.ts:219-253 | seeding makes one task per record |
| TasksService.TaskRepository.FindByProject | hackathon-be/src/tasks/tasks.service.ts:44-49 | exactly the project's tasks |
| TasksService.TaskRepository.AssignToUser | hackathon-be/src/tasks/tasks.service.ts:139-147 | an unknown user is NotFound with nothing changed; otherwise only the task's assignee changes and the updated task is returned, or NotFound for a missing task |
| TasksService.TaskRepository.UpdateStatus | hackathon-be/src/tasks/tasks.service.ts:149-152 | only the task's status changes; the updated task is returned exactly when it exists |
| TasksService.TaskRepository.UpdateProgress | hackathon-be/src/tasks/tasks.service.ts:154-162 | progress outside 0..100 is refused with nothing changed; otherwise progress is set and the task is complete exactly at 100 |
| TasksService.TaskRepository.Create | hackathon-be/src/tasks/tasks.service.ts:72-99 | a given but unknown project, then a given but unknown assignee, is NotFound with nothing changed; otherwise the new task with the column defaults is appended |
| TasksService.TaskRepository.Update | hackathon-be/src/tasks/tasks.service.ts:101-133 | a missing task is NotFound; a changed project or assignee that does not exist is NotFound with nothing changed; otherwise the patch is applied to that task only |
| TasksService.TaskRepository.SeedTasks | hackathon-be/src/tasks/tasks.service.ts:164-262 | nothing changes when tasks exist; otherwise the project named `Movie Streaming Platform` is reused or created, the table becomes one seeded task per record in file order in that project, and the project's task count is set to the number of its tasks, which is the number of records |
| TasksService.TaskRepository.SaveSeeded | hackathon-be/src/tasks/tasks.service.ts:219-253 | the seeding loop saves exactly one task per record, in file order, with distinct ids |
| ProjectsService.FindByIds | hackathon-be/src/projects/projects.service.ts:69-70 | the users found are exactly the table users whose id was requested |
| ProjectsService.MissingIds | hackathon-be/src/projects/projects.service.ts:72-73 | the missing ids are exactly the requested ids that no found user carries |
| ProjectsService.NotIn | hackathon-be/src/projects/projects.service.ts:80-81 | the users kept are exactly those whose id is not already a member's |
| ProjectsService.WithoutIds | hackathon-be/src/projects/projects.service.ts:100 | the members kept are exactly those whose id is not listed |
| ProjectsService.Active | hackathon-be/src/projects/projects.service.ts:107-113 | exactly the active users |
| ProjectsService.Ids | hackathon-be/src/projects/projects.service.ts:118 | the ids of the users, position by position |
| ProjectsService.NotInKeepsDistinct | hackathon-be/src/projects/projects.service.ts:80-81 | filtering keeps ids distinct |
| ProjectsService.AddMembersDistinct | hackathon-be/src/projects/projects.service.ts:80-84 | adding users never introduces a duplicate id |
| ProjectsService.AddMembersIds | hackathon-be/src/projects/projects.service.ts:80-84 | after adding, the member ids are the old ids and the found ids |
| ProjectsService.NotInAllKnown | hackathon-be/src/projects/projects.service.ts:80-81 | users that are all members already add nothing |
| ProjectsService.AddMembersIdempotent | hackathon-be/src/projects/projects.service.ts:80-84 | adding the same users twice is the same as adding them once |
| ProjectsService.WithoutIdsUnchangedIff | hackathon-be/src/projects/projects.service.ts:100 | removing changes nothing exactly when no member's id is listed |
| ProjectsService.WithoutIdsKeepsAll | hackathon-be/src/projects/projects.service.ts:100 | when no member is listed, all members are kept |
| ProjectsService.DistinctCard | hackathon-be/src/projects/projects.service.ts:71 | a list has as many distinct ids as entries exactly when none repeats |
| ProjectsService.UserIdsCons | hackathon-be/src/projects/projects.service.ts:69-70 | the table's ids are the first id and, disjoint from it, the rest's ids |
| ProjectsService.CommonIdsCons | hackathon-be/src/projects/projects.service.ts:69-70 | the requested ids in the table count the first user once when requested |
| ProjectsService.FindByIdsCard | hackathon-be/src/projects/projects.service.ts:69-70 | the users found are as many as the distinct requested ids the table holds |
| ProjectsService.FoundAllIff | hackathon-be/src/projects/projects.service.ts:69-71 | the count check passes exactly when every requested id exists and none is repeated |
| ProjectsService.ActiveKeepsOrder | hackathon-be/src/projects/projects.service.ts:108-113 | the active users of an oldest-first table are oldest first |
| ProjectsService.OldestPrefix | hackathon-be/src/projects/projects.service.ts:110-112 | the first n of an oldest-first list are oldest first and no younger than the rest |
| ProjectsService.FiveOldestActive | hackathon-be/src/projects/projects.service.ts:107-113 | at most five active users, oldest first, five unless fewer are active, none younger than an active user left out; the order by creation time is the invariant `ProjectStore.Valid` states for the users table |
| ProjectsService.ProjectStore.FindOne | hackathon-be/src/projects/projects.service.ts:22-31 | a project's member list exactly when the project exists, NotFound otherwise |
| ProjectsService.ProjectStore.AddUsersToProject | hackathon-be/src/projects/projects.service.ts:64-88 | a missing project, then a count mismatch listing the missing ids, is NotFound with nothing changed; otherwise only that project's members grow by the new users |
| ProjectsService.ProjectStore.RemoveUsersFromProject | hackathon-be/src/projects/projects.service.ts:90-105 | NotFound for a missing project; otherwise only that project's members shrink to those not listed |
| ProjectsService.ProjectStore.AddFiveUsersToProject | hackathon-be/src/projects/projects.service.ts:107-124 | NotFound when no user is active, then for a missing project; otherwise the five oldest active users are added |
| ProjectsService.ProjectStore.IsUserInProject | hackathon-be/src/projects/projects.service.ts:134-140 | true exactly when a member has the id |
| ProjectsService.ProjectStore.RemoveAllUsersFromProject | hackathon-be/src/projects/projects.service.ts:158-162 | the member list becomes empty and no other project changes |
| ProjectsService.FindByIdsDistinct | hackathon-be/src/projects/projects.service.ts:69-70 | the users found have distinct ids |
| ProjectsService.WithoutIdsDistinct | hackathon-be/src/projects/projects.service.ts:100 | removing keeps ids distinct |
| ProjectsService.FoundAgain | hackathon-be/src/projects/projects.service.ts:118-119 | users taken from the table find exactly themselves again |
| ProjectsService.PickedAreFound | hackathon-be/src/projects/projects.service.ts:107-121 | the five picked users pass the lookup by their ids unchanged |
| ProjectsService.ActiveDistinct | hackathon-be/src/projects/projects.service.ts:108 | the active users have distinct ids |
| SubtasksService.FindIn | hackathon-be/src/subtasks/subtasks.service.ts:22-31 | the row found has the id; NotFound with the service's message exactly when no row has it |
| SubtasksService.UpdateWhere | hackathon-be/src/subtasks/subtasks.service.ts:92 | the rows with the id are edited and every other row is untouched |
| SubtasksService.FindAfterUpdate | hackathon-be/src/subtasks/subtasks.service.ts:92-93 | reading back after an update gives the old row with the edit applied |
| SubtasksService.DistinctSnoc | hackathon-be/src/subtasks/subtasks.service.ts:60-62 | appending a row with a fresh id keeps ids distinct |
| SubtasksService.OfTask | hackathon-be/src/subtasks/subtasks.service.ts:33-38 | exactly the task's subtasks |
| SubtasksService.Insert | hackathon-be/src/subtasks/subtasks.service.ts:36 | insertion adds the row and keeps the others |
| SubtasksService.InsertSorted | hackathon-be/src/subtasks/subtasks.service.ts:36 | inserting into a list sorted by position keeps it sorted |
| SubtasksService.SortByOrder | hackathon-be/src/subtasks/subtasks.service.ts:36 | a permutation of its input, sorted by ascending position |
| SubtasksService.Reordered | hackathon-be/src/subtasks/subtasks.service.ts:101-104 | renumbering keeps the number of rows |
| SubtasksService.ReorderedSpec | hackathon-be/src/subtasks/subtasks.service.ts:96-104 | an unlisted subtask keeps its position; a listed one ends at one more than its last index in the list; nothing else changes |
| SubtasksService.ReorderNumbersListed | hackathon-be/src/subtasks/subtasks.service.ts:101-104 | with distinct ids, the subtask listed at index i ends at position i + 1 |
| SubtasksService.ReorderedKeepsIds | hackathon-be/src/subtasks/subtasks.service.ts:101-104 | renumbering never changes an id |
| SubtasksService.SubtaskRepository.FindByTask | hackathon-be/src/subtasks/subtasks.service.ts:33-38 | exactly the task's subtasks, in ascending position |
| SubtasksService.SubtaskRepository.Create | hackathon-be/src/subtasks/subtasks.service.ts:40-63 | a given but unknown task is NotFound with nothing changed; otherwise the row is appended, and a missing or zero position becomes one more than the task's subtask count |
| SubtasksService.SubtaskRepository.UpdateStatus | hackathon-be/src/subtasks/subtasks.service.ts:88-94 | only the status changes and the completion flag is untouched; NotFound for a missing subtask |
| SubtasksService.SubtaskRepository.Reorder | hackathon-be/src/subtasks/subtasks.service.ts:96-104 | the listed subtasks are renumbered 1.. in list order, whatever task they belong to, and the task's subtasks are returned by position |
| Attendance.StatusOf | django_project/apps/attendance/views.py:230-262 | a record exists exactly when today has one; check-in is offered exactly when there is no record or it has no check-in; check-out exactly when it has a check-in and no check-out |
| Attendance.StatusExclusive | django_project/apps/attendance/views.py:238-256 | the two buttons are never offered together |
| Attendance.CheckInSpec | django_project/apps/attendance/views.py:72-103 | check-in succeeds exactly when the status offers it; a refusal changes nothing; a success creates a present record or fills in the check-in, and no other day changes |
| Attendance.CheckOutSpec | django_project/apps/attendance/views.py:146-198 | check-out succeeds exactly when the status offers it; no record and no check-in are told apart; a refusal changes nothing; a success sets only the check-out time |
| Attendance.CheckInThenStatus | django_project/apps/attendance/views.py:92-103 | after a check-in, check-in is no longer offered and check-out is, unless the record already had one |
| Attendance.CheckOutThenStatus | django_project/apps/attendance/views.py:192-194 | after a check-out neither button is offered |
| Attendance.TimesAreWrittenOnce | django_project/apps/attendance/views.py:75-198 | a check-in or check-out time, once set, is never overwritten by either view |
| Attendance.Store.CheckIn | django_project/apps/attendance/views.py:63-103 | the table and outcome after a check-in are those of the check-in step |
| Attendance.Store.CheckOut | django_project/apps/attendance/views.py:137-198 | the table and outcome after a check-out are those of the check-out step |
| Attendance.Store.AttendanceStatus | django_project/apps/attendance/views.py:230-262 | the report is the status of today's record, and nothing changes |
| Attendance.MonthWindow | django_project/apps/attendance/views.py:284-288 | a window exists exactly for a valid month, except December of the last year, where the date constructor raises |
| Attendance.MonthWindowContains | django_project/apps/attendance/views.py:284-293 | a date lies in the window exactly when it is in the requested month and year |
| Attendance.MonthWindowBounds | django_project/apps/attendance/views.py:284-288 | the window runs from the first of the month to the first of the next month, rolling the year after December |
| Attendance.HistoryMonth | django_project/apps/attendance/views.py:274-281 | a missing month or year falls back to today's month and year |
| Attendance.TeamCounts | django_project/apps/attendance/views.py:356-377 | the present, late and absent counts are the number of users with that status today, a user without a record counting as absent |
| Attendance.TeamCountsBound | django_project/apps/attendance/views.py:356-377 | the three counts never exceed the number of users, and add up to it when every status is present, late or absent |
| DashboardLogs.DateTimeLength | django_project/apps/dashboard/views.py:512 | a date-time match ends inside the line, after at least nineteen characters, with a colon six places from its end |
| DashboardLogs.Halves | django_project/apps/dashboard/views.py:519-521 | a concatenation splits back into its two parts |
| DashboardLogs.BackTailOf | django_project/apps/dashboard/views.py:512-516 | the `\s+(.+)` tail of a message after a gap is that message |
| DashboardLogs.SpacedTailOf | django_project/apps/dashboard/views.py:512-514 | a space and a message match `\s+(.+)` as that message |
| DashboardLogs.MsTailOf | django_project/apps/dashboard/views.py:512 | milliseconds then a spaced message split into those two groups |
| DashboardLogs.DateTimeOf | django_project/apps/dashboard/views.py:512-514 | a date, one space and a time match the date-time group with exactly nineteen characters |
| DashboardLogs.DateTailOf | django_project/apps/dashboard/views.py:514 | a date-time, milliseconds and a message give those three groups |
| DashboardLogs.DateTailSplit | django_project/apps/dashboard/views.py:514 | the date-time group is the matched prefix, and the milliseconds and message come from what follows the comma |
| DashboardLogs.Pattern1Of | django_project/apps/dashboard/views.py:512 | a `LEVEL date time,ms message` line matches the first pattern with those groups |
| DashboardLogs.ParseLogLine | django_project/apps/dashboard/views.py:500-562 | by `Pattern1Line`, `Pattern2Line`, `Pattern3Line` and `NoColonFallsBack`: each of the three line shapes gives its level, timestamp and message, and a line without a colon is kept whole as an INFO entry |
| DashboardLogs.Pattern1Line | django_project/apps/dashboard/views.py:519-530 | parsing such a line gives that level, the timestamp `date time.ms`, the message and the log type |
| DashboardLogs.LevelTailOf | django_project/apps/dashboard/views.py:514 | a spaced level and message split into those groups |
| DashboardLogs.Pattern1NeedsSpace | django_project/apps/dashboard/views.py:512 | a word followed by neither a word character nor a space does not match the first pattern |
| DashboardLogs.Pattern2Of | django_project/apps/dashboard/views.py:514 | a `date time,ms LEVEL message` line matches the second pattern with those groups |
| DashboardLogs.Pattern2Line | django_project/apps/dashboard/views.py:519-530 | the first pattern fails on such a line and the second one's groups are unpacked in first-pattern order: the date-time becomes the level and the timestamp is \`ms.LEVEL\` |
| DashboardLogs.NotDateTime | django_project/apps/dashboard/views.py:514 | a word followed by a colon does not start a date-time |
| DashboardLogs.Pattern3Of | django_project/apps/dashboard/views.py:516 | `LEVEL: message` matches the third pattern, spaces after the colon dropped |
| DashboardLogs.Pattern3Line | django_project/apps/dashboard/views.py:531-538 | parsing such a line gives that level and message, stamped with the current time |
| DashboardLogs.NoColonFallsBack | django_project/apps/dashboard/views.py:545-552 | a line without a colon is kept whole as an INFO entry stamped with the current time |
| DashboardLogs.ParsedLines | django_project/apps/dashboard/views.py:462-476 | at most one entry per read line |
| DashboardLogs.ParseLogFile | django_project/apps/dashboard/views.py:430-486 | a missing file gives no entries; otherwise the entries of its lines |
| DashboardLogs.ParseLines | django_project/apps/dashboard/views.py:462-476 | the loop gives one parsed entry per kept line, and its count is the number of entries |
| DashboardLogs.ParsedLinesCount | django_project/apps/dashboard/views.py:463-472 | there are exactly as many entries as non-blank lines not starting with `#` |
| DashboardLogs.ParsedLinesFrom | django_project/apps/dashboard/views.py:463-472 | every entry is the parse of some kept line |
| DashboardLogs.FileEntriesBounds | django_project/apps/dashboard/views.py:457-486 | a file with lines gives 1 to 100 entries: only the summary entry when none of the last hundred lines is kept, the parsed entries otherwise |
| DashboardLogs.GetLogStatistics | django_project/apps/dashboard/views.py:564-596 | each counter is the number of entries of its kind: ERROR level, or a message mentioning login, user or system in any case; recent errors are ERROR entries whose timestamp parses within the window |
| DashboardLogs.StatisticsBounds | django_project/apps/dashboard/views.py:564-596 | recent errors are at most the errors, which are at most the entries |
| DashboardLogs.OverviewSources | django_project/apps/dashboard/views.py:623-644 | the overview total is the entries of the three files; every other counter depends on one file only |
| LogManager.Created | debugs_project/log_manager.py:20-27 | after the call every log exists, and an existing log is untouched |
| LogManager.HeaderNotCounted | debugs_project/log_manager.py:27 | the header of a new log is skipped by the analyses |
| LogManager.UserCapture | debugs_project/log_manager.py:72-74 | the reported user is a non-empty run of word characters |
| LogManager.UserStart | debugs_project/log_manager.py:72 | the search finds a `user` match, if any, at or after its starting point |
| LogManager.DateStart | debugs_project/log_manager.py:77 | the search finds a date match, if any, at or after its starting point |
| LogManager.DateOf | debugs_project/log_manager.py:77-79 | a line's date is ten characters in `YYYY-MM-DD` shape |
| LogManager.ActivityBounds | debugs_project/log_manager.py:55-68 | every login attempt is failed or successful, and each counted line adds to at most one of logins, check-ins, check-outs and dashboard views |
| LogManager.CountsSnoc | debugs_project/log_manager.py:55-68 | one more line adds one to each counter exactly when the line is of that counter's kind |
| LogManager.UsersSnoc | debugs_project/log_manager.py:72-74 | one more line adds its user, if it is counted and names one |
| LogManager.DailySnoc | debugs_project/log_manager.py:77-80 | one more line adds one to its date's count, if it is counted and carries a date |
| LogManager.ActivitySnoc | debugs_project/log_manager.py:50-80 | the tallies with one more line are the old tallies with that line added |
| LogManager.CountKind | debugs_project/log_manager.py:55-68 | the `if`/`elif` chain adds to the counter of the line's kind |
| LogManager.TallyCounted | debugs_project/log_manager.py:55-80 | one loop pass adds the line's kind, then its user, then its date |
| LogManager.AnalyzeLines | debugs_project/log_manager.py:50-80 | the loop's tallies are those of all counted lines of the log |
| LogManager.DailyCounts | debugs_project/log_manager.py:77-80 | each date's count is the number of counted lines carrying it; dates never seen are absent |
| LogManager.UserOfLeadingName | debugs_project/log_manager.py:72-74 | a line `user`, separators, a name reports that name |
| LogManager.LeadingNameParts | debugs_project/log_manager.py:72 | where the separators and the name sit in such a line |
| LogManager.TimestampStart | debugs_project/log_manager.py:120 | the search finds a timestamp match, if any, at or after its starting point |
| LogManager.LoggedAt | debugs_project/log_manager.py:120-123 | a logged time that parses is a valid date-time |
| LogManager.RecentErrors | debugs_project/log_manager.py:113-128 | by `RecentErrorsSpec` and `UnparsableNotReported`: one stripped line per counted line whose timestamp parses and is not before the cutoff, and never a line whose timestamp does not parse |
| LogManager.RecentErrorsSpec | debugs_project/log_manager.py:113-128 | the report holds one stripped line for each counted line whose timestamp parses and is not before the cutoff |
| LogManager.UnparsableNotReported | debugs_project/log_manager.py:121-128 | a line whose timestamp does not parse is never reported |
| LogManager.RecentErrorLine | debugs_project/log_manager.py:116-128 | the per-line test is the recent-error predicate |
| LogManager.ScanErrors | debugs_project/log_manager.py:113-128 | the loop gives the recent errors in file order and their count |
| LogManager.LineDate | debugs_project/log_manager.py:187-190 | a line's date that parses is valid and comes from the line's date match |
| LogManager.CleanupPartition | debugs_project/log_manager.py:185-198 | every line is either kept or counted as old, and a line without a valid date is kept |
| LogManager.OldLine | debugs_project/log_manager.py:187-198 | the per-line test is the old-line predicate |
| LogManager.CleanupFile | debugs_project/log_manager.py:182-198 | the loop gives the kept lines and the number of old ones |
| LogManager.TailOfSpec | debugs_project/log_manager.py:222 | a positive count gives the last n lines, zero gives all lines, a negative count drops the first -n |
| LogManager.TailShown | debugs_project/log_manager.py:224-226 | the printed lines are the tail, each right-stripped |
| LogManager.LogManager.Files | debugs_project/log_manager.py:16-18 | the three logs, in report order |
| LogManager.LogManager.EnsureLogFiles | debugs_project/log_manager.py:20-27 | each missing log is created with its header; existing logs are untouched |
| LogManager.LogManager.AnalyzeActivityLogs | debugs_project/log_manager.py:29-83 | nothing for a missing activity log, else the tallies of its lines |
| LogManager.LogManager.CheckErrors | debugs_project/log_manager.py:103-143 | nothing for a missing error log, else the recent errors, their count and the last ten shown |
| LogManager.LogManager.CleanupOldLogs | debugs_project/log_manager.py:166-203 | for each existing log, the number of lines dated before the cutoff; nothing is written back |
| LogManager.LogManager.TailLogs | debugs_project/log_manager.py:205-231 | for each existing log, the lines printed |
| LogManager.LogManager.MonitorSystemHealth | debugs_project/log_manager.py:145-164 | the activity tallies and the recent-error report of the last day |
| Accounts.Directory.constructor | Tasking_project/django_project/apps/users/views.py:213-226 | an empty user table |
| Accounts.Directory.Create | Tasking_project/django_project/apps/users/views.py:213-226 | a new row under a primary key not in use, no other row changes, and the account's username and email are taken afterwards |
| Accounts.LastIndexOf | Tasking_project/django_project/apps/users/views.py:213-219 | the last position of a character: absent exactly when the character does not occur, otherwise holding it with none after it |
| Accounts.NormalizeEmail | Tasking_project/django_project/apps/users/views.py:213-219 | by `NormalizeEmailSplits`, `NormalizeEmailNoAt` and `NormalizeEmailIdempotent`: the local part is kept and the domain lower-cased, an address without `@` is kept as given, and normalising twice changes nothing |
| Accounts.NormalizeEmailSplits | Tasking_project/django_project/apps/users/views.py:213-219 | the email `create_user` stores keeps the local part and lower-cases the domain |
| Accounts.NormalizeEmailNoAt | Tasking_project/django_project/apps/users/views.py:213-219 | an email without `@` is stored exactly as given |
| Accounts.NormalizeEmailIdempotent | Tasking_project/django_project/apps/users/views.py:213-219 | normalising a stored email again changes nothing |
| Accounts.CreatedIsTaken | Tasking_project/django_project/apps/users/views.py:204-208 | once an account is created its username and its email count as taken |
| UserAdmin.UserList | Tasking_project/django_project/apps/users/views.py:76-111 | the list is shown exactly to managers and admins |
| UserAdmin.UserListFilters | Tasking_project/django_project/apps/users/views.py:94-111 | with the default or `active` status only active users are listed, with `inactive` only inactive ones; a role filter keeps only that role; a search keeps only matching users |
| UserAdmin.UserListAll | Tasking_project/django_project/apps/users/views.py:94-111 | with no search, no role and status `all` every user is listed |
| UserAdmin.AddUserGuards | Tasking_project/django_project/apps/users/views.py:184-226 | a user is added exactly when an admin posts a username and email that are not blank after stripping, a password, and a username and email not taken |
| UserAdmin.AddUser | Tasking_project/django_project/apps/users/views.py:178-240 | the outcome is that decision; on success one new account under a fresh key, with the email normalised as `create_user` stores it; otherwise nothing changes |
| UserAdmin.NewAccount | Tasking_project/django_project/apps/users/views.py:213-228 | by `AddUserGuards` and `AddUser`: the account stored on success, under its stripped username, with its email normalised; adding it makes the same form fail because the username exists |
| UserAdmin.Changes | Tasking_project/django_project/apps/users/views.py:284-290 | one change per differing field among role, active flag and email |
| UserAdmin.ChangeLog | Tasking_project/django_project/apps/users/views.py:284-292 | by `ChangeLogMeaning` and `Changes`: `profile info` exactly when no field changed, otherwise the changes joined, starting with the first differing field |
| UserAdmin.ChangeLogMeaning | Tasking_project/django_project/apps/users/views.py:284-292 | the log reads `profile info` exactly when nothing changed, and otherwise starts with the first change's field |
| UserAdmin.FirstChangeHead | Tasking_project/django_project/apps/users/views.py:284-290 | the first change starts with the name of the first field that differs |
| UserAdmin.HeadOfLog | Tasking_project/django_project/apps/users/views.py:292 | a log that starts with a change starts with its field name and is not `profile info` |
| UserAdmin.JoinStartsWithFirst | Tasking_project/django_project/apps/users/views.py:292 | a joined list starts with its first part |
| UserAdmin.EditUser | Tasking_project/django_project/apps/users/views.py:244-303 | only an admin may edit an existing user; a POST sets the edited fields and logs the changes; a GET only gives the user a default profile when it has none |
| UserAdmin.DeleteUser | Tasking_project/django_project/apps/users/views.py:306-340 | the outcome is the delete decision; on success only the target's active flag is cleared |
| UserAdmin.ReactivateUser | Tasking_project/django_project/apps/users/views.py:343-371 | an admin's POST sets the target's active flag, whoever the target is; otherwise nothing changes |
| UserAdmin.DeleteThenReactivate | Tasking_project/django_project/apps/users/views.py:310-360 | an admin can never delete their own account; a delete goes ahead exactly for an admin's POST on another existing user, and a reactivation restores the account |
| UserAdmin.ResetGuards | Tasking_project/django_project/apps/users/views.py:378-395 | a password is reset exactly when an admin posts a password of at least eight characters confirmed by the same text |
| UserAdmin.ResetUserPassword | Tasking_project/django_project/apps/users/views.py:374-406 | the outcome is that decision; on success only the target's password changes |
| UserAdmin.HardDeleteGuards | Tasking_project/django_project/apps/users/views.py:413-449 | a row is removed exactly when an admin posts for another existing user who is not an admin; the own account and non-admins are refused |
| UserAdmin.HardDeleteUser | Tasking_project/django_project/apps/users/views.py:409-455 | the outcome is that decision; on success only the target's row is removed |
| Authentication.GreetingName | Tasking_project/django_project/apps/authentication/views.py:30 | the greeting uses the full name, or the username when the full name is empty |
| Authentication.Login | Tasking_project/django_project/apps/authentication/views.py:15-37 | a welcome exactly for a POST whose credentials authenticate a known account; that account gets a default profile when it has none and nothing else changes |
| Authentication.LoginKeepsProfiles | Tasking_project/django_project/apps/authentication/views.py:26-29 | after a login every account keeps its profile, and the one that logged in has one |
| Authentication.LogoutName | Tasking_project/django_project/apps/authentication/views.py:40 | the logged name is the user's, or `Anonymous` without a user |
| Authentication.Registrant | Tasking_project/django_project/apps/authentication/views.py:77-86 | a registered account is active, keeps the posted username and names, stores the email normalised, and has a profile with the plain user role, neither staff nor admin |
| Authentication.RegisterGuards | Tasking_project/django_project/apps/authentication/views.py:49-86 | a registration succeeds exactly for a POST whose passwords agree, whose username is not empty and whose username and email are both free; `create_user` fails exactly when all checks pass with an empty username; the same form posted again finds the username taken |
| Authentication.DomainCaseEscapesEmailCheck | Tasking_project/django_project/apps/authentication/views.py:70-83 | the email check compares the posted address with stored normalised ones, so an address with an upper-case domain letter can be registered again under another username |
| Authentication.Register | Tasking_project/django_project/apps/authentication/views.py:48-95 | the outcome is that decision; on success one new account under a fresh key, otherwise (including a failed `create_user`) nothing changes |
| CustomJs.Prefix | Tasking_project/django_project/static/js/custom.js:160 | `substring(0, n)` is the first n characters, or the whole string when shorter |
| CustomJs.PieceValue | Tasking_project/django_project/static/js/custom.js:159-161 | a piece yields a value exactly when, trimmed, it starts with `name=`; the value is what follows |
| CustomJs.GetCookie | Tasking_project/django_project/static/js/custom.js:154-166 | the result is the value of the first matching piece, decoded; an empty cookie string gives null |
| CustomJs.GetCookieFindsFirstPair | Tasking_project/django_project/static/js/custom.js:154-166 | for a cookie string made of well-formed pairs, a value is found exactly when some pair has the name, and it is the decoded value of the first such pair |
| CustomJs.CookiePieces | Tasking_project/django_project/static/js/custom.js:157-159 | splitting such a cookie string at `;` gives one piece per pair, each trimming to its `name=value` text |
| CustomJs.PairAvoids | Tasking_project/django_project/static/js/custom.js:157 | a well-formed pair holds no `;` |
| CustomJs.PieceStrips | Tasking_project/django_project/static/js/custom.js:159 | trimming removes the space a cookie string puts after each `;` |
| CustomJs.PairMatches | Tasking_project/django_project/static/js/custom.js:160-161 | a pair's text starts with `name=` exactly when the pair has that name, and then the rest is its value |
| CustomJs.SplitSpaced | Tasking_project/django_project/static/js/custom.js:157 | splitting pieces joined by `; ` gives back each piece, after the first with a leading space |
| CustomJs.LongerNameDoesNotMatch | Tasking_project/django_project/static/js/custom.js:160 | a cookie whose name only starts with the requested name does not match it |
| CustomJs.Marked | Tasking_project/django_project/static/js/custom.js:120-126 | a field is marked `is-invalid` exactly when its value is blank after trimming; a filled field is marked `is-valid`, and a blank one keeps whatever `is-valid` it had |
| CustomJs.MarkField | Tasking_project/django_project/static/js/custom.js:120-126 | one field's new classes and whether it is blank |
| CustomJs.ValidateForm | Tasking_project/django_project/static/js/custom.js:113-129 | the form is valid exactly when no required value is blank, and every field gets its marked classes |
| CustomJs.BlankCount | Tasking_project/django_project/static/js/custom.js:119-129 | no blank value exactly when the blank count is zero |
| CustomJs.SlashSplits | Tasking_project/django_project/static/js/custom.js:255-256 | text holding `/` splits into at least two parts |
| CustomJs.CounterAfterSlash | Tasking_project/django_project/static/js/custom.js:255-258 | a counter with `/` shows the value, `/` and the text up to the next `/` |
| CustomJs.CounterKeepsDenominator | Tasking_project/django_project/static/js/custom.js:255-261 | `a/b` and `a/b/c` counters keep `b` after the value; text without `/` shows only the value |
| CustomJs.AvoidsNotContains | Tasking_project/django_project/static/js/custom.js:255 | text without a character does not contain it |
| TaskModel.ProgressPercentage | Tasking_project/django_project/apps/tasks/models.py:29-32 | by `ProgressBounds`: between 0 and 100, 100 exactly when there are tasks and all are completed, 0 exactly when none is |
| TaskModel.ProgressBounds | Tasking_project/django_project/apps/tasks/models.py:28-32 | progress lies in 0..100; it is 100 exactly when there are tasks and all are completed, and 0 exactly when none is completed |
| TaskModel.ShareBounds | Tasking_project/django_project/apps/tasks/models.py:32 | a share of a whole in percent lies in 0..100 and hits each end exactly at none and all |
| TaskModel.StatusBadgeClass | Tasking_project/django_project/apps/tasks/models.py:78-87 | one of the five classes; any unknown status gets `bg-secondary` |
| TaskModel.PriorityBadgeClass | Tasking_project/django_project/apps/tasks/models.py:89-97 | one of the four classes; any unknown priority gets `bg-secondary` |
| TaskModel.StatusBadgeMeaning | Tasking_project/django_project/apps/tasks/models.py:78-87 | `bg-primary` means in progress, `bg-success` completed, and `bg-secondary` exactly new or an unknown status |
| TaskModel.Stamped | Tasking_project/django_project/apps/tasks/models.py:101-106 | a stamp once set is kept; it is set exactly when it was set or the trigger holds |
| TaskModel.ReplayFirst | Tasking_project/django_project/apps/tasks/models.py:99-108 | over a run of saves a set stamp never changes, and an unset stamp ends holding the time of the first save with the target status, or stays unset when there is none |
| TaskModel.Task.constructor | Tasking_project/django_project/apps/tasks/models.py:58-66 | a new task has status `new`, priority `medium`, and no stamps |
| TaskModel.Task.Save | Tasking_project/django_project/apps/tasks/models.py:99-108 | `started_at` is set at the first save in progress and `completed_at` at the first save completed; neither is overwritten and nothing else changes |
| TaskModel.OverdueMeaning | Tasking_project/django_project/apps/tasks/models.py:74-76 | a completed task is never overdue; an unfinished task past its deadline is, and stays so as time passes |
| ProjectDetail.ConvertDefaults | hackathon-fe/src/pages/project-detail.tsx:113-135 | a converted task keeps its id, name and description; a missing status becomes `todo`, a missing priority `medium`, a missing assignee `Unassigned` and missing progress 0; it is overdue exactly when its due date has passed |
| ProjectDetail.PercentNearest | hackathon-fe/src/pages/project-detail.tsx:177-178 | `Math.round` of the share gives the whole percentage nearest the exact one, halves up: 0..100, and 0 and 100 for none and all |
| ProjectDetail.StatsOf | hackathon-fe/src/pages/project-detail.tsx:168-186 | the total is the number of tasks; done and in-progress together and overdue each stay within it; progress lies in 0..100 and is 0 without tasks |
| ProjectDetail.DoneAndInProgress | hackathon-fe/src/pages/project-detail.tsx:170-175 | done and in-progress tasks are disjoint, so their counts add up to at most the total |
| ProjectDetail.CountStatuses | hackathon-fe/src/pages/project-detail.tsx:189-193 | the loop's per-status counts are the tally of the statuses |
| ProjectDetail.CalculateStats | hackathon-fe/src/pages/project-detail.tsx:168-206 | the totals, and for each status present its count and rounded share |
| ProjectDetail.StatusCountsPartition | hackathon-fe/src/pages/project-detail.tsx:189-203 | a status is listed exactly when some task has it, each count lies between 1 and the total, and the counts add up to the total |
| ProjectDetail.StatusTallied | hackathon-fe/src/pages/project-detail.tsx:189-193 | one status is listed exactly when some task has it, with a count between 1 and the total |
| ProjectList.ClearedFilters | hackathon-fe/src/pages/project-list.tsx:84-90 | clearing restores an empty search, no status and sorting by creation time |
| ProjectList.FilteredMeaning | hackathon-fe/src/pages/project-list.tsx:34-47 | a project is kept exactly when it matches the search (name or description, ignoring case) and the status filter; with neither, every project is kept |
| ProjectList.LexLeTotal | hackathon-fe/src/pages/project-list.tsx:52-53 | any two names compare one way or the other |
| ProjectList.LexLeTransitive | hackathon-fe/src/pages/project-list.tsx:52-53 | the name order is transitive |
| ProjectList.PrecedesIsOrder | hackathon-fe/src/pages/project-list.tsx:49-63 | each of the four sort orders is total and transitive |
| ProjectList.AdjacentOrdersAll | hackathon-fe/src/pages/project-list.tsx:49 | under a transitive order, neighbours in order put every pair in order |
| ProjectList.AdjacentCons | hackathon-fe/src/pages/project-list.tsx:49 | a first element in order with the next extends an ordered list |
| ProjectList.AdjacentJoin | hackathon-fe/src/pages/project-list.tsx:49 | two ordered runs whose meeting pair is in order form an ordered list |
| ProjectList.SwapDown | hackathon-fe/src/pages/project-list.tsx:49 | one exchange moves an element left past one it must precede, keeping the elements |
| ProjectList.Insert | hackathon-fe/src/pages/project-list.tsx:49 | an element moves left into an ordered prefix, keeping the elements |
| ProjectList.Sort | hackathon-fe/src/pages/project-list.tsx:49-64 | the array ends in order, with the same elements |
| ProjectList.FilteredAndSortedProjects | hackathon-fe/src/pages/project-list.tsx:33-66 | the filtered projects, each allowed to precede every one after it under the chosen order |
| TaskForm.ValidationMeaning | hackathon-fe/src/components/tasks/task-form.tsx:61-85 | the name and description errors are set exactly when the trimmed text is empty, the project error exactly when no project is chosen; priority and difficulty never err; the form is valid exactly when all three are filled |
| TaskForm.SubmittedMeaning | hackathon-fe/src/components/tasks/task-form.tsx:89-97 | the submission keeps every value except that the `unassigned` marker and zero hours become absent, and only those |
| TaskForm.ClearedOnlyThat | hackathon-fe/src/components/tasks/task-form.tsx:108-110 | editing a field clears that field's error and leaves every other error as it was |
| TaskForm.TaskFormState.constructor | hackathon-fe/src/components/tasks/task-form.tsx:43-59 | the form opens with the initial data or the defaults, and no errors |
| TaskForm.TaskFormState.ValidateForm | hackathon-fe/src/components/tasks/task-form.tsx:61-85 | the errors become those of the current data, the data is unchanged, and the result is whether there are none |
| TaskForm.TaskFormState.HandleSubmit | hackathon-fe/src/components/tasks/task-form.tsx:87-101 | a submission is made exactly when the data validates, and it is the data with the markers dropped |
| TaskForm.TaskFormState.HandleInputChange | hackathon-fe/src/components/tasks/task-form.tsx:103-111 | only the edited field's value changes, and only its error is cleared |
| TaskForm.TaskFormState.HandleNumberChange | hackathon-fe/src/components/tasks/task-form.tsx:113-123 | an absent or zero number is stored as 0 hours; the errors stay as they were, having no hours entry |
| TaskForm.InitialDefaults | hackathon-fe/src/components/tasks/task-form.tsx:43-51 | missing initial values become empty text, medium priority and difficulty, `unassigned` and 0 hours, given values are kept, and an empty form does not validate |
| ProjectForm.InitialFormData | hackathon-fe/src/components/projects/project-form.tsx:32-36 | a missing or empty status starts as `active`, so the status is never empty at first |
| ProjectForm.ValidationMeaning | hackathon-fe/src/components/projects/project-form.tsx:44-66 | the name and description errors are set exactly when the trimmed text is empty, the status error exactly when no status is chosen; the form is valid exactly when all three are filled |
| ProjectForm.ClearedOnlyThat | hackathon-fe/src/components/projects/project-form.tsx:81-83 | editing a field clears that field's error and leaves the others as they were |
| ProjectForm.ProjectFormState.constructor | hackathon-fe/src/components/projects/project-form.tsx:32-42 | the form opens with the initial data or the defaults, and no errors |
| ProjectForm.ProjectFormState.ValidateForm | hackathon-fe/src/components/projects/project-form.tsx:44-66 | the errors become those of the current data, the data is unchanged, and the result is whether there are none |
| ProjectForm.ProjectFormState.HandleSubmit | hackathon-fe/src/components/projects/project-form.tsx:68-73 | the data is handed over exactly when it validates |
| ProjectForm.ProjectFormState.HandleInputChange | hackathon-fe/src/components/projects/project-form.tsx:75-84 | only the edited field's value changes, and only its error is cleared |
| AiAssignmentResult.SuccessRate | hackathon-fe/src/components/projects/ai-assignment-result.tsx:42-44 | 0 without assignments; otherwise between 0 and 100, and 100 exactly when every assignment succeeded |
| AiAssignmentResult.SummaryOf | hackathon-fe/src/components/projects/ai-assignment-result.tsx:138-153 | each summary count is the length of its analysis array, or 0 when that array is missing |
| AiAssignmentResult.CardFor | hackathon-fe/src/components/projects/ai-assignment-result.tsx:18-44 | nothing is shown without a result; a non-empty error shows the failure card with that message; otherwise the success card is shown |
| AiAssignmentResult.SuccessCardPartition | hackathon-fe/src/components/projects/ai-assignment-result.tsx:38-57 | the assignments split into successful and failed exactly by their assigned flag, the sizes add up to the total, the headline counts the successes, and the rate lies in 0..100, 0 without assignments |
| AiAssignmentResult.ShownPercentRounds | hackathon-fe/src/components/projects/ai-assignment-result.tsx:69-76 | the shown percentage is the rate rounded to the nearest whole number, in 0..100, and 100 when nothing failed |
| AiAssignmentResult.RateWithinHalf | hackathon-fe/src/components/projects/ai-assignment-result.tsx:69 | integer bounds on the count carry over to the exact rate, so the rounded value is within one half of it |
| TeamMembers.FirstChar | hackathon-fe/src/components/tasks/team-members.tsx:15-18 | `charAt(0)` is the first character, or empty for an empty string |
| TeamMembers.Initials | hackathon-fe/src/components/tasks/team-members.tsx:11-19 | at most two characters, and none for an empty name |
| TeamMembers.OneWordInitial | hackathon-fe/src/components/tasks/team-members.tsx:18 | a one-word name gives its first letter upper-cased |
| TeamMembers.TwoWordInitials | hackathon-fe/src/components/tasks/team-members.tsx:14-15 | two words give both first letters upper-cased |
| TeamMembers.MiddleNameSkipped | hackathon-fe/src/components/tasks/team-members.tsx:14-15 | a middle name does not change the initials |
| TeamMembers.LeadingSpaceDropsFirst | hackathon-fe/src/components/tasks/team-members.tsx:12-15 | a leading space makes the first word empty, so only the last initial is shown |
| TaskTable.StatusBadge | hackathon-fe/src/components/projects/task-table.tsx:30-59 | the caption is never empty; an unconfigured status gets the default colour with the raw value, or `Unknown` when empty |
| TaskTable.PriorityBadge | hackathon-fe/src/components/projects/task-table.tsx:61-76 | a badge exactly for the four known priorities; any other priority throws |
| TaskTable.OneWordLabel | hackathon-fe/src/components/projects/task-table.tsx:31-41 | a one-word key's label is its first letter upper-cased |
| TaskTable.TwoWordLabel | hackathon-fe/src/components/projects/task-table.tsx:31-41 | a two-word key's label is both words capitalised and joined by a space |
| TaskTable.Humanize | hackathon-fe/src/components/projects/task-table.tsx:31-41 | keeps the length; by `OneWordLabel`, `TwoWordLabel` and `StatusLabelsAreHumanized`: the first letter of each word upper-cased and `_` turned into a space, which reproduces every configured status label |
| TaskTable.StatusLabelsAreHumanized | hackathon-fe/src/components/projects/task-table.tsx:31-41 | every configured status label is the humanised status value |
| TaskTable.ConfiguredOneWord | hackathon-fe/src/components/projects/task-table.tsx:31-41 | a configured one-word status whose label is the status with its first letter upper-cased is labelled with its humanised value |
| TaskTable.PriorityLabelsAreHumanized | hackathon-fe/src/components/projects/task-table.tsx:62-67 | every configured priority label is the humanised priority value |
| TaskTable.Preview | hackathon-fe/src/components/projects/task-table.tsx:113-115 | a description of at most 50 characters is shown whole; a longer one is cut to its first 50 characters followed by `...` |
| TaskTable.PreviewIdempotent | hackathon-fe/src/components/projects/task-table.tsx:113-115 | previewing a preview changes nothing |
| TaskTags.GetItem | django_project/apps/tasks/templatetags/task_tags.py:6-8 | the list stored under the key, or an empty list for a missing key |
| TaskTags.GetItemEmpty | django_project/apps/tasks/templatetags/task_tags.py:6-8 | the result is empty exactly when the key is missing or holds an empty list |
| TaskTags.StatusColor | django_project/apps/tasks/templatetags/task_tags.py:11-20 | always one of the five colours, each known status mapped to its own |
| TaskTags.StatusColorInverse | django_project/apps/tasks/templatetags/task_tags.py:11-20 | each colour identifies its status; `secondary` means `new` or an unknown status |

## Left out

- The language model, Streamlit, pandas and `json` parsing are not modelled. Model replies are text, and parsed JSON documents and data frames are given values.
- Spawning the assignment script and reading or writing its files in the AI assignment service are not modelled. Only the documents' contents and the reconciliation are.
- Database access is modelled as maps and sequences. The model does not cover:
  - ORM ordering other than what a method states;
  - pagination;
  - relations loading;
  - transactions;
  - the exceptions a database raises.
- The read-only finders the core does not name are not modelled (`findAll`, `findByUser`, `findByStatus`, `findByPriority`, `remove`, project `create`/`update`/`getProjectUsers`/`getProjectsByUser`, subtask `update`/`remove`). They are plain repository calls with no rule of their own.
- Clocks (`timezone.now()`, `datetime.now()`, `new Date()`, `performance.now()`) are parameters.
- Time formatting with `strftime` and ISO dates is not modelled. Dates are integers or `(year, month, day)` triples.
- Randomness is a parameter: the random user chosen in `seedTasks` is a `choice` index.
- Floating point is modelled as exact real arithmetic or exact integer rounding. Binary rounding of `/` and `* 100` is not modelled.
- Regular expressions are structural recognisers that follow the pattern's greedy matching.
  - `\w` covers ASCII letters, digits and `_`, and the Latin-1, Latin Extended-A/B and Vietnamese letters. Letters and digits of other scripts (Greek, Cyrillic, CJK and so on) are not in it.
  - `\d` and `\s` are the ASCII classes; Unicode digits and spaces beyond ASCII are not modelled.
- Case mapping and trimming (`lower`, `toUpperCase`, `trim`, `strip`) use the character sets in `Text`. Multi-character case mappings such as `ß` to `SS` are not modelled.
- TeamMembers.Initials: the bound of two characters holds for this per-character upper-casing. JavaScript's `toUpperCase` can lengthen a string.
- ProjectList.FilteredAndSortedProjects: `localeCompare` is modelled as code-point order, and the stability of `Array.prototype.sort` is not stated. Equal projects may come out in either order.
- TaskTable.Preview: lengths and positions count Unicode characters, not JavaScript's UTF-16 code units, so a description with characters outside the Basic Multilingual Plane is cut elsewhere (30 emoji are 60 code units and would be cut).
- TeamMembers.FirstChar: `charAt(0)` is modelled as the first Unicode character; for a name starting outside the Basic Multilingual Plane JavaScript gives half a surrogate pair.
- CustomJs.Prefix: `substring(0, n)` counts Unicode characters, not UTF-16 code units.
- Authentication.Registrant: the NFKC normalisation `create_user` applies to the username is not modelled; the username is stored as posted.
- UserAdmin.NewAccount: the username is stored stripped, without the NFKC normalisation of `create_user`.
- Accounts.NormalizeEmail: Python's `str.lower` is the per-character lower-casing of `Text`.
- TasksService.TaskRepository.SeedTasks: the name, description, status and progress written into a created project are not modelled, only its id; a failure inside the `try` block is not modelled.
- ProjectsService.FiveOldestActive: the database's `ORDER BY createdAt ASC` is not a step of the model; the users table is kept in that order as part of `ProjectStore.Valid`, and the function requires it.
- TasksService.SeedTask: the random pick in the department pool is the `choice` parameter, taken modulo the pool size.
- Attendance.CheckInSpec: the status of a created record is the `present` the view writes. The attendance model's `save()` may recompute it; that method is not part of this model.
- DashboardLogs.GetLogStatistics: the test of whether an error timestamp lies in the last day, including `fromisoformat` parsing, is the parameter `recent`.
- DashboardLogs.ParseLogFile: the `except` branches that turn a read error into an error entry are not modelled. Reading a file is a given list of lines.
- Django messages, logging, redirects and template rendering are not modelled. Only the outcome of each view and the rows it changes are.
- `print` output of `log_manager.py` is not modelled (a result value holds what is printed), nor are its file sizes and command-line dispatch.
- Password hashing, Django's `authenticate`, and `form.is_valid()` are not modelled.
  - A password is stored as given.
  - `authenticate` is a parameter.
  - `change_password` and `profile` are not part of this model.
- The `KeyError` a view raises on a missing POST field is not modelled. Form fields are given values.
- `decodeURIComponent` is the parameter `decode`. Its `URIError` on a malformed escape is not modelled.
- The frame-by-frame animation of `animateValue` is not modelled. Only the text rule for a counter's new value is.
- TaskTable.StatusBadge: a status that names an `Object.prototype` member (such as `toString`) finds that member in the JavaScript lookup. Here it is simply unconfigured.
- React rendering, state batching and event objects are not modelled. A component's state is a class whose handlers assign its fields.

## Findings

| source | as written | input that shows it | evidently intended | confidence | as-written member | corrected member |
|---|---|---|---|---|---|---|
| hackathon-be/ai_integration.py:20-22 | each table match is read through `tbl[0]`, its first character `\|`, so no candidate has two pipe lines and `parse_markdown_table` always returns `None`; the copy at hackathon-be/model.py:140-143 does the same | the one-column table `\|a\|`, `\|-\|`, `\|1\|` (three lines, each ending in a newline) | read the lines of the whole match `tbl`, giving header `a` and row `1` | not executed | MarkdownTables.ParseMarkdownTableAsWrittenIsNone | MarkdownTables.ParseMarkdownTableSpec |
| hackathon-be/model.py:359-376 | the assignment-table scan also splits `tbl[0]`, so it never finds a table and `df_assign` stays `None` | a reply holding the table `\|Task ID\|user\|`, `\|-\|-\|`, `\|TASK01\|An\|` | scan the lines of each whole match and stop at the first with a `Task ID` header and a member or user column | not executed | MarkdownTables.AssignmentTableAsWrittenIsNone | MarkdownTables.AssignmentTableSpec |
| hackathon-be/src/ai-task-assignment/ai-task-assignment.service.ts:203-211 | `applyAITaskAssignments` numbers the tasks `TASK01`, `TASK02`, ... in `findByProject` order, while the task document numbers them grouped by status | a project whose tasks, in table order, have the statuses todo, done, todo | number the tasks in the order of the document, grouped by status | not executed | AiTaskAssignment.InterleavedStatusesRenumber | AiTaskAssignment.DocumentIdsResolveInDocumentOrder |
