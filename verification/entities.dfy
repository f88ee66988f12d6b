/**
 * The rows of the NestJS back end's tables (users, tasks, subtasks), as values.
 * Enumerated columns that the code compares with free text (a task's status, a
 * user's department) are kept as their stored text; nullable numbers are options.
 */
module Entities {
  import opened Common

  /** A row of the users table. */
  datatype User = User(
    id: string,
    name: string,
    department: string,
    position: string,
    experience: string,
    projectsDone: Option<int>,
    avgTaskCompletion: string,
    deadlineMisses: Option<int>,
    isActive: bool,
    createdAt: int)

  datatype Priority = Low | Medium | High | Urgent
  {
    function Name(): string
    {
      match this
      case Low => "low"
      case Medium => "medium"
      case High => "high"
      case Urgent => "urgent"
    }
  }

  datatype Difficulty = Easy | Moderate | Hard | VeryHard
  {
    function Name(): string
    {
      match this
      case Easy => "easy"
      case Moderate => "medium"
      case Hard => "hard"
      case VeryHard => "very_hard"
    }
  }

  /** The stored text of the task statuses the back end defines. */
  const Todo: string := "todo"
  const InProgress: string := "in_progress"
  const Review: string := "review"
  const Done: string := "done"
  const Cancelled: string := "cancelled"

  /** A row of the tasks table (time stamps and the due date are left out). */
  datatype Task = Task(
    id: string,
    name: string,
    description: string,
    priority: Priority,
    difficulty: Difficulty,
    status: string,
    estimatedHours: int,
    progress: int,
    isCompleted: bool,
    projectId: string,
    assignedUserId: Option<string>)

  /** A row of the subtasks table. */
  datatype Subtask = Subtask(
    id: string,
    name: string,
    status: string,
    isCompleted: bool,
    order: int,
    taskId: string)

  /** JavaScript truthiness of an optional string: present and not empty. */
  predicate Truthy(s: Option<string>)
  {
    s.Some? && s.value != ""
  }
}
