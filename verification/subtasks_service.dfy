/**
 * The subtask service of the NestJS back end: a store of subtask rows, the ids
 * of the existing tasks, and the rules for creating subtasks with a default
 * position, listing a task's subtasks by position, renumbering and changing
 * status.
 */
module SubtasksService {
  import opened Common
  import opened Entities

  function SubtaskNotFound(id: string): string { "Subtask with ID " + id + " not found" }
  function TaskNotFound(id: string): string { "Task with ID " + id + " not found" }

  /** The fields a caller supplies when creating a subtask. */
  datatype SubtaskDraft = SubtaskDraft(
    name: string,
    status: string,
    isCompleted: bool,
    order: Option<int>,
    taskId: Option<string>)

  /** The single-row updates the service issues. */
  datatype Edit = SetStatus(status: string) | SetOrder(order: int)

  function Apply(s: Subtask, e: Edit): Subtask
  {
    match e
    case SetStatus(st) => s.(status := st)
    case SetOrder(n) => s.(order := n)
  }

  /** The first row with the given id, or the service's not-found error. */
  function FindIn(rows: seq<Subtask>, id: string): (r: Result<Subtask>)
    ensures r.Ok? ==> r.value in rows && r.value.id == id
    ensures r.Err? <==> forall i :: 0 <= i < |rows| ==> rows[i].id != id
    ensures r.Err? ==> r.message == SubtaskNotFound(id)
  {
    if |rows| == 0 then Err(SubtaskNotFound(id))
    else if rows[0].id == id then Ok(rows[0])
    else FindIn(rows[1..], id)
  }

  /** Every row with the given id edited, the others untouched. */
  function UpdateWhere(rows: seq<Subtask>, id: string, e: Edit): (r: seq<Subtask>)
    ensures |r| == |rows|
    ensures forall i :: 0 <= i < |rows| ==> r[i] == if rows[i].id == id then Apply(rows[i], e) else rows[i]
  {
    seq(|rows|, i requires 0 <= i < |rows| => if rows[i].id == id then Apply(rows[i], e) else rows[i])
  }

  /** Reading a row back after an update gives the old row with the edit applied; a missing id stays missing. */
  lemma {:induction false} FindAfterUpdate(rows: seq<Subtask>, id: string, e: Edit)
    ensures FindIn(UpdateWhere(rows, id, e), id)
      == match FindIn(rows, id) case Ok(s) => Ok(Apply(s, e)) case Err(m) => Err(m)
    decreases |rows|
  {
    if |rows| > 0 && rows[0].id != id {
      assert UpdateWhere(rows, id, e)[1..] == UpdateWhere(rows[1..], id, e);
      FindAfterUpdate(rows[1..], id, e);
    }
  }

  predicate DistinctIds(rows: seq<Subtask>)
  {
    forall i, j :: 0 <= i < j < |rows| ==> rows[i].id != rows[j].id
  }

  function Ids(rows: seq<Subtask>): set<string>
  {
    set s | s in rows :: s.id
  }

  /** Appending a row with a fresh id keeps ids distinct. */
  lemma {:induction false} DistinctSnoc(rows: seq<Subtask>, s: Subtask)
    requires DistinctIds(rows) && s.id !in Ids(rows)
    ensures DistinctIds(rows + [s])
  {
    var r := rows + [s];
    forall i, j | 0 <= i < j < |r| ensures r[i].id != r[j].id {
      if j == |rows| {
        assert r[i] in rows;
      }
    }
  }

  /** The rows that belong to a task, in table order (`find({ where: { taskId } })`). */
  function OfTask(rows: seq<Subtask>, taskId: string): (r: seq<Subtask>)
    ensures |r| <= |rows|
    ensures forall s :: s in r <==> s in rows && s.taskId == taskId
  {
    if |rows| == 0 then []
    else (if rows[0].taskId == taskId then [rows[0]] else []) + OfTask(rows[1..], taskId)
  }

  predicate SortedByOrder(s: seq<Subtask>)
  {
    forall i, j :: 0 <= i < j < |s| ==> s[i].order <= s[j].order
  }

  /** `x` placed before the first row of `s` whose position is not smaller. */
  function Insert(x: Subtask, s: seq<Subtask>): (r: seq<Subtask>)
    ensures multiset(r) == multiset(s) + multiset{x}
    ensures |r| == |s| + 1
  {
    if |s| == 0 || x.order <= s[0].order then
      [x] + s
    else
      assert s == [s[0]] + s[1..];
      [s[0]] + Insert(x, s[1..])
  }

  /** Inserting into a sorted list keeps it sorted. */
  lemma {:induction false} InsertSorted(x: Subtask, s: seq<Subtask>)
    requires SortedByOrder(s)
    ensures SortedByOrder(Insert(x, s))
    ensures Insert(x, s)[0] == x || Insert(x, s)[0] == s[0]
  {
    if |s| > 0 && x.order > s[0].order {
      var rest := s[1..];
      assert forall i :: 0 <= i < |rest| ==> s[0].order <= rest[i].order;
      InsertSorted(x, rest);
      InsertLowerBound(x, rest, s[0].order);
      assert Insert(x, s) == [s[0]] + Insert(x, rest);
    }
  }

  /** A lower bound of `x` and of every row of `s` bounds every row after the insertion. */
  lemma {:induction false} InsertLowerBound(x: Subtask, s: seq<Subtask>, b: int)
    requires b <= x.order
    requires forall i :: 0 <= i < |s| ==> b <= s[i].order
    ensures forall j :: 0 <= j < |Insert(x, s)| ==> b <= Insert(x, s)[j].order
  {
    if |s| > 0 && x.order > s[0].order {
      var rest := s[1..];
      assert forall i :: 0 <= i < |rest| ==> b <= rest[i].order;
      InsertLowerBound(x, rest, b);
      assert Insert(x, s) == [s[0]] + Insert(x, rest);
    }
  }

  /** The rows ordered by ascending position: a sorted permutation of the input. */
  function SortByOrder(s: seq<Subtask>): (r: seq<Subtask>)
    ensures multiset(r) == multiset(s)
    ensures SortedByOrder(r)
  {
    if |s| == 0 then []
    else
      assert s == [s[0]] + s[1..];
      InsertSorted(s[0], SortByOrder(s[1..]));
      Insert(s[0], SortByOrder(s[1..]))
  }

  /** The rows after renumbering `ids[0..n)` as positions 1..n, one update after another. */
  function Reordered(rows: seq<Subtask>, ids: seq<string>): (r: seq<Subtask>)
    ensures |r| == |rows|
    decreases |ids|
  {
    if |ids| == 0 then rows
    else UpdateWhere(Reordered(rows, ids[..|ids| - 1]), ids[|ids| - 1], SetOrder(|ids|))
  }

  /** Whether `id` is listed at index `i` and at no later index. */
  predicate LastAt(ids: seq<string>, id: string, i: int)
  {
    0 <= i < |ids| && ids[i] == id && forall j :: i < j < |ids| ==> ids[j] != id
  }

  /**
   * After renumbering, a row whose id is listed takes the position just after its
   * last listing; every other row is untouched, whatever task it belongs to.
   */
  lemma {:induction false} ReorderedSpec(rows: seq<Subtask>, ids: seq<string>, k: nat)
    requires k < |rows|
    ensures rows[k].id !in ids ==> Reordered(rows, ids)[k] == rows[k]
    ensures forall i :: LastAt(ids, rows[k].id, i) ==> Reordered(rows, ids)[k] == rows[k].(order := i + 1)
    ensures Reordered(rows, ids)[k] == rows[k].(order := Reordered(rows, ids)[k].order)
    decreases |ids|
  {
    if |ids| > 0 {
      var n := |ids|;
      var init := ids[..n - 1];
      ReorderedSpec(rows, init, k);
      assert forall j :: 0 <= j < n - 1 ==> init[j] == ids[j];
      if rows[k].id != ids[n - 1] {
        assert rows[k].id in ids ==> rows[k].id in init;
        forall i | LastAt(ids, rows[k].id, i) ensures Reordered(rows, ids)[k] == rows[k].(order := i + 1) {
          assert LastAt(init, rows[k].id, i);
        }
      }
    }
  }

  /** With distinct ids, the subtask listed at index i ends at position i + 1. */
  lemma {:induction false} ReorderNumbersListed(rows: seq<Subtask>, ids: seq<string>, k: nat, i: nat)
    requires k < |rows| && i < |ids| && ids[i] == rows[k].id
    requires forall a, b :: 0 <= a < b < |ids| ==> ids[a] != ids[b]
    ensures Reordered(rows, ids)[k].order == i + 1
    ensures Reordered(rows, ids)[k] == rows[k].(order := i + 1)
  {
    assert LastAt(ids, rows[k].id, i);
    ReorderedSpec(rows, ids, k);
  }

  /** Renumbering never changes ids, so distinct ids stay distinct. */
  lemma {:induction false} ReorderedKeepsIds(rows: seq<Subtask>, ids: seq<string>)
    ensures forall k :: 0 <= k < |rows| ==> Reordered(rows, ids)[k].id == rows[k].id
    decreases |ids|
  {
    if |ids| > 0 {
      ReorderedKeepsIds(rows, ids[..|ids| - 1]);
    }
  }

  class SubtaskRepository {
    var rows: seq<Subtask>
    var taskIds: set<string>

    ghost predicate Valid()
      reads this
    {
      DistinctIds(rows)
    }

    constructor (taskIds: set<string>)
      ensures Valid() && rows == [] && this.taskIds == taskIds
    {
      rows := [];
      this.taskIds := taskIds;
    }

    /** `findOne`: the row with that id, or NotFound. */
    function FindOne(id: string): Result<Subtask>
      reads this
    {
      FindIn(rows, id)
    }

    /** `findByTask`: exactly the task's subtasks, by ascending position. */
    function FindByTask(taskId: string): (r: seq<Subtask>)
      reads this
      ensures SortedByOrder(r)
      ensures multiset(r) == multiset(OfTask(rows, taskId))
      ensures forall s :: s in r <==> s in rows && s.taskId == taskId
    {
      var r := SortByOrder(OfTask(rows, taskId));
      assert forall s :: s in r <==> s in multiset(r);
      r
    }

    /**
     * `create`: a present, non-empty task id must name an existing task; a missing or
     * zero position becomes one more than the number of subtasks of that task
     * (of all subtasks when no task id is given).
     */
    method Create(draft: SubtaskDraft, freshId: string) returns (r: Result<Subtask>)
      requires Valid() && freshId !in Ids(rows)
      modifies this`rows
      ensures Valid()
      ensures Truthy(draft.taskId) && draft.taskId.value !in taskIds ==>
        r == Err(TaskNotFound(draft.taskId.value)) && rows == old(rows)
      ensures r.Ok? <==> !(Truthy(draft.taskId) && draft.taskId.value !in taskIds)
      ensures r.Ok? ==> rows == old(rows) + [r.value] && r.value.id == freshId
      ensures r.Ok? ==> r.value.taskId == draft.taskId.GetOr("") && r.value.name == draft.name
      ensures r.Ok? && draft.order.Some? && draft.order.value != 0 ==> r.value.order == draft.order.value
      ensures r.Ok? && (draft.order.None? || draft.order.value == 0) ==>
        r.value.order == 1 + if draft.taskId.Some? then |OfTask(old(rows), draft.taskId.value)| else |old(rows)|
    {
      if Truthy(draft.taskId) && draft.taskId.value !in taskIds {
        return Err(TaskNotFound(draft.taskId.value));
      }
      var order: int;
      if draft.order.None? || draft.order.value == 0 {
        var existing := if draft.taskId.Some? then OfTask(rows, draft.taskId.value) else rows;
        order := |existing| + 1;
      } else {
        order := draft.order.value;
      }
      var s := Subtask(freshId, draft.name, draft.status, draft.isCompleted, order, draft.taskId.GetOr(""));
      DistinctSnoc(rows, s);
      rows := rows + [s];
      r := Ok(s);
    }

    /** `updateStatus`: only the status of the subtask changes; the completion flag is untouched. */
    method UpdateStatus(id: string, status: string) returns (r: Result<Subtask>)
      requires Valid()
      modifies this`rows
      ensures Valid()
      ensures rows == UpdateWhere(old(rows), id, SetStatus(status))
      ensures r.Ok? <==> old(FindIn(rows, id)).Ok?
      ensures r.Ok? ==> r.value == old(FindIn(rows, id)).value.(status := status)
      ensures r.Err? ==> r == Err(SubtaskNotFound(id))
    {
      FindAfterUpdate(rows, id, SetStatus(status));
      rows := UpdateWhere(rows, id, SetStatus(status));
      r := FindIn(rows, id);
    }

    /**
     * `reorder`: the subtask listed at index i gets position i + 1, one update per listed
     * id, without checking which task it belongs to; the result is the task's list.
     */
    method Reorder(taskId: string, subtaskIds: seq<string>) returns (r: seq<Subtask>)
      requires Valid()
      modifies this`rows
      ensures Valid()
      ensures rows == Reordered(old(rows), subtaskIds)
      ensures r == FindByTask(taskId)
    {
      ReorderedKeepsIds(rows, subtaskIds);
      ghost var start := rows;
      for i := 0 to |subtaskIds|
        invariant rows == Reordered(start, subtaskIds[..i])
      {
        assert subtaskIds[..i + 1][..i] == subtaskIds[..i];
        rows := UpdateWhere(rows, subtaskIds[i], SetOrder(i + 1));
      }
      assert subtaskIds[..|subtaskIds|] == subtaskIds;
      r := FindByTask(taskId);
    }
  }
}
