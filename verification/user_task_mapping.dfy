/**
 * `extract_mapping_user_task` of the Python analysis script: finds, in the model's
 * Markdown reply, the first pipe table with a task-id column and a member-name column
 * and reads it into (task id, member name) pairs, one per alphabetic member name.
 */
module UserTaskMapping {
  import opened Common
  import opened Text
  import opened MarkdownTables
  import opened MemberNames

  /** One extracted row: a task id and a member's name. */
  datatype Pair = Pair(taskId: string, memberName: string)

  /** The header words of a member column ("member", "user", "person in charge", "name"). */
  const UserColumnWords: seq<string> :=
    ["th\U{00E0}nh vi\U{00EA}n", "user", "ng\U{01B0}\U{1EDD}i ph\U{1EE5} tr\U{00E1}ch", "t\U{00EA}n"]

  /** "name": a member column must contain it. */
  const NameWord: string := "t\U{00EA}n"

  /** The characters that separate several members in one cell. */
  const UserSeparators: set<char> := {';', ',', '/'}

  /** The header cells, stripped and lower-cased. */
  function Header(line: string): (hs: seq<string>)
    ensures |hs| == |Cells(line)|
  {
    var cs := Cells(line);
    seq(|cs|, i requires 0 <= i < |cs| => Lower(cs[i]))
  }

  predicate IsTaskColumn(h: string)
  {
    Contains(h, "task") && Contains(h, "id")
  }

  /** The `elif` branch of the column loop: a member column that is not a task-id column. */
  predicate IsMemberColumn(h: string)
  {
    !IsTaskColumn(h)
    && (exists k :: 0 <= k < |UserColumnWords| && Contains(h, UserColumnWords[k]))
    && Contains(h, NameWord)
  }

  /** The last index whose element satisfies `p`: what a loop that overwrites its index on every hit ends with. */
  function LastIndexWhere<T>(xs: seq<T>, p: T -> bool): (r: Option<nat>)
    ensures r.Some? ==> r.value < |xs| && p(xs[r.value]) && forall j :: r.value < j < |xs| ==> !p(xs[j])
    ensures r.None? ==> forall j :: 0 <= j < |xs| ==> !p(xs[j])
  {
    if |xs| == 0 then None
    else if p(xs[|xs| - 1]) then Some(|xs| - 1)
    else LastIndexWhere(xs[..|xs| - 1], p)
  }

  /** The pair one part of a member cell yields: the part stripped and cleaned, kept when it is alphabetic. */
  function PartPairs(taskId: string, u: string): seq<Pair>
  {
    var v := Strip(u);
    if v == "" then []
    else
      var name := CleanMemberName(v);
      if name != "" && IsAlpha(name) then [Pair(taskId, name)] else []
  }

  /** The results of `f` on each element of `xs`, concatenated in order. */
  function ConcatMap<A, B>(xs: seq<A>, f: A -> seq<B>): seq<B>
  {
    if |xs| == 0 then []
    else ConcatMap(xs[..|xs| - 1], f) + f(xs[|xs| - 1])
  }

  /** Everything in a concatenation comes from one of the elements. */
  lemma {:induction false} ConcatMapFrom<A, B>(xs: seq<A>, f: A -> seq<B>)
    ensures forall y :: y in ConcatMap(xs, f) ==> exists i :: 0 <= i < |xs| && y in f(xs[i])
    decreases |xs|
  {
    if |xs| > 0 {
      var init := xs[..|xs| - 1];
      ConcatMapFrom(init, f);
      assert ConcatMap(xs, f) == ConcatMap(init, f) + f(xs[|xs| - 1]);
      forall y | y in ConcatMap(xs, f) ensures exists i :: 0 <= i < |xs| && y in f(xs[i]) {
        if y !in f(xs[|xs| - 1]) {
          var i :| 0 <= i < |init| && y in f(init[i]);
          assert init[i] == xs[i];
        }
      }
    }
  }

  /** One more element appends its own results. */
  lemma {:induction false} ConcatMapSnoc<A, B>(xs: seq<A>, x: A, f: A -> seq<B>)
    ensures ConcatMap(xs + [x], f) == ConcatMap(xs, f) + f(x)
  {
    assert (xs + [x])[..|xs|] == xs;
  }

  /** Each element adds at most `bound` entries to a concatenation. */
  lemma {:induction false} ConcatMapSize<A, B>(xs: seq<A>, f: A -> seq<B>, bound: nat)
    requires forall i :: 0 <= i < |xs| ==> |f(xs[i])| <= bound
    ensures |ConcatMap(xs, f)| <= bound * |xs|
    decreases |xs|
  {
    if |xs| > 0 {
      var init := xs[..|xs| - 1];
      assert forall i :: 0 <= i < |init| ==> init[i] == xs[i];
      ConcatMapSize(init, f, bound);
    }
  }

  /** The pairs of the parts of one member cell, in order. */
  function CellPairs(taskId: string, parts: seq<string>): seq<Pair>
  {
    ConcatMap(parts, u => PartPairs(taskId, u))
  }

  /**
   * The pairs of one data line: none for a delimiter row, for a line too short for either
   * column, or for an empty task id or member cell.
   */
  function RowPairs(row: string, it: nat, iu: nat): seq<Pair>
  {
    if IsSeparatorRow(row) then []
    else
      var cells := Cells(row);
      if |cells| <= it || |cells| <= iu then []
      else
        var taskId := Strip(cells[it]);
        var userCell := Strip(cells[iu]);
        if taskId == "" || userCell == "" then [] else CellPairs(taskId, Split(userCell, UserSeparators))
  }

  /** The pairs of the data lines, in line order. */
  function RowsPairs(rows: seq<string>, it: nat, iu: nat): seq<Pair>
  {
    ConcatMap(rows, row => RowPairs(row, it, iu))
  }

  /** One more data line appends its own pairs. */
  lemma {:induction false} RowsPairsSnoc(rows: seq<string>, row: string, it: nat, iu: nat)
    ensures RowsPairs(rows + [row], it, iu) == RowsPairs(rows, it, iu) + RowPairs(row, it, iu)
  {
    ConcatMapSnoc(rows, row, r => RowPairs(r, it, iu));
  }

  /** The first `n + 1` data lines: the pairs of the first `n`, then line `n`'s. */
  lemma {:induction false} RowsPairsPrefix(rows: seq<string>, n: nat, it: nat, iu: nat)
    requires n < |rows|
    ensures RowsPairs(rows[..n + 1], it, iu) == RowsPairs(rows[..n], it, iu) + RowPairs(rows[n], it, iu)
  {
    assert rows[..n + 1] == rows[..n] + [rows[n]];
    RowsPairsSnoc(rows[..n], rows[n], it, iu);
  }

  /** Every emitted pair has a non-empty task id and a purely alphabetic member name. */
  predicate GoodPairs(ps: seq<Pair>)
  {
    forall q :: q in ps ==> q.taskId != "" && IsAlpha(q.memberName)
  }

  /** One part yields at most one pair, carrying the cell's task id and an alphabetic name. */
  lemma {:induction false} PartPairsShape(taskId: string, u: string)
    ensures |PartPairs(taskId, u)| <= 1
    ensures forall q :: q in PartPairs(taskId, u) ==> q.taskId == taskId && IsAlpha(q.memberName)
    ensures PartPairs(taskId, u) != [] <==> Strip(u) != "" && IsAlpha(CleanMemberName(Strip(u)))
  {
  }

  /** A member cell yields at most one pair per part, each with the row's task id and an alphabetic name. */
  lemma {:induction false} CellPairsShape(taskId: string, parts: seq<string>)
    ensures |CellPairs(taskId, parts)| <= |parts|
    ensures forall q :: q in CellPairs(taskId, parts) ==> q.taskId == taskId && IsAlpha(q.memberName)
  {
    var f := u => PartPairs(taskId, u);
    forall i | 0 <= i < |parts| ensures |f(parts[i])| <= 1 {
      PartPairsShape(taskId, parts[i]);
    }
    ConcatMapSize(parts, f, 1);
    ConcatMapFrom(parts, f);
    forall q | q in CellPairs(taskId, parts) ensures q.taskId == taskId && IsAlpha(q.memberName) {
      var i :| 0 <= i < |parts| && q in f(parts[i]);
      PartPairsShape(taskId, parts[i]);
    }
  }

  /**
   * A data line yields pairs only when it is not a delimiter row and has both columns;
   * each pair carries the line's stripped task-id cell, which is not empty.
   */
  lemma {:induction false} RowPairsShape(row: string, it: nat, iu: nat)
    ensures GoodPairs(RowPairs(row, it, iu))
    ensures RowPairs(row, it, iu) != [] ==> !IsSeparatorRow(row) && it < |Cells(row)| && iu < |Cells(row)|
    ensures forall q :: q in RowPairs(row, it, iu) ==> it < |Cells(row)| && q.taskId == Strip(Cells(row)[it])
  {
    if !IsSeparatorRow(row) && it < |Cells(row)| && iu < |Cells(row)| {
      var taskId := Strip(Cells(row)[it]);
      CellPairsShape(taskId, Split(Strip(Cells(row)[iu]), UserSeparators));
    }
  }

  lemma {:induction false} RowsPairsShape(rows: seq<string>, it: nat, iu: nat)
    ensures GoodPairs(RowsPairs(rows, it, iu))
  {
    var f := row => RowPairs(row, it, iu);
    ConcatMapFrom(rows, f);
    forall q | q in RowsPairs(rows, it, iu) ensures q.taskId != "" && IsAlpha(q.memberName) {
      var i :| 0 <= i < |rows| && q in f(rows[i]);
      RowPairsShape(rows[i], it, iu);
    }
  }

  /**
   * The pairs of one table: its header is the line before its first delimiter row (line 0
   * when there is none or it comes first), the task column is the last task-id header and
   * the member column the last other header naming members; a table lacking either
   * column, or with fewer than two lines, yields nothing.
   */
  function TableMapping(lines: seq<string>): seq<Pair>
  {
    if |lines| < 2 then []
    else
      var header := Header(lines[HeaderIndex(lines)]);
      var it := LastIndexWhere(header, IsTaskColumn);
      var iu := LastIndexWhere(header, IsMemberColumn);
      if it.None? || iu.None? then [] else RowsPairs(lines[DataStart(lines)..], it.value, iu.value)
  }

  lemma {:induction false} TableMappingShape(lines: seq<string>)
    ensures GoodPairs(TableMapping(lines))
  {
    if |lines| >= 2 {
      var header := Header(lines[HeaderIndex(lines)]);
      var it := LastIndexWhere(header, IsTaskColumn);
      var iu := LastIndexWhere(header, IsMemberColumn);
      if it.Some? && iu.Some? {
        RowsPairsShape(lines[DataStart(lines)..], it.value, iu.value);
      }
    }
  }

  function TableResult(lines: seq<string>): Option<seq<Pair>>
  {
    var m := TableMapping(lines);
    if |m| > 0 then Some(m) else None
  }

  /** `extract_mapping_user_task`: the pairs of the first matched table that yields any, else nothing. */
  function ExtractMapping(text: string): Option<seq<Pair>>
  {
    FirstSome(Tables(text), TableResult)
  }

  /**
   * The extracted pairs come from one matched table that has both columns; every table
   * before it yields no pair; there is at least one pair, each with a non-empty task id
   * and an alphabetic member name (so a name with a space is never emitted).
   */
  lemma {:induction false} ExtractMappingSpec(text: string)
    ensures var r := ExtractMapping(text);
      r.Some? ==> exists i :: (0 <= i < |Tables(text)| && r.value == TableMapping(Tables(text)[i])
        && forall j :: 0 <= j < i ==> TableMapping(Tables(text)[j]) == [])
    ensures var r := ExtractMapping(text);
      r.Some? ==> |r.value| > 0 && GoodPairs(r.value)
    ensures ExtractMapping(text).None? <==> forall i :: 0 <= i < |Tables(text)| ==> TableMapping(Tables(text)[i]) == []
  {
    var ts := Tables(text);
    FirstSomeSpec(ts, TableResult);
    var r := ExtractMapping(text);
    assert forall j :: 0 <= j < |ts| ==> (TableResult(ts[j]).None? <==> TableMapping(ts[j]) == []);
    if r.Some? {
      var i :| 0 <= i < |ts| && TableResult(ts[i]) == r && forall j :: 0 <= j < i ==> TableResult(ts[j]).None?;
      assert r.value == TableMapping(ts[i]);
      TableMappingShape(ts[i]);
    }
  }

  /** A table yields pairs only when its header has both a task-id column and a member column. */
  lemma {:induction false} PairsNeedBothColumns(lines: seq<string>)
    requires TableMapping(lines) != []
    ensures |lines| >= 2
    ensures var header := Header(lines[HeaderIndex(lines)]);
      (exists i :: 0 <= i < |header| && IsTaskColumn(header[i]))
      && (exists i :: 0 <= i < |header| && IsMemberColumn(header[i]))
  {
    var header := Header(lines[HeaderIndex(lines)]);
    var it := LastIndexWhere(header, IsTaskColumn);
    var iu := LastIndexWhere(header, IsMemberColumn);
    assert IsTaskColumn(header[it.value]) && IsMemberColumn(header[iu.value]);
  }

  /** Each part of a member cell yields at most one pair, so a row yields at most as many pairs as its cell has parts. */
  lemma {:induction false} RowPairsBound(row: string, it: nat, iu: nat)
    requires !IsSeparatorRow(row) && it < |Cells(row)| && iu < |Cells(row)|
    ensures |RowPairs(row, it, iu)| <= |Split(Strip(Cells(row)[iu]), UserSeparators)|
  {
    CellPairsShape(Strip(Cells(row)[it]), Split(Strip(Cells(row)[iu]), UserSeparators));
  }

  // ---------------------------------------------------------------- the loops

  /** The column loop: the task index and the member index are overwritten on every hit. */
  method FindColumns(header: seq<string>) returns (idxTask: Option<nat>, idxUser: Option<nat>)
    ensures idxTask == LastIndexWhere(header, IsTaskColumn)
    ensures idxUser == LastIndexWhere(header, IsMemberColumn)
  {
    idxTask, idxUser := None, None;
    for i := 0 to |header|
      invariant idxTask == LastIndexWhere(header[..i], IsTaskColumn)
      invariant idxUser == LastIndexWhere(header[..i], IsMemberColumn)
    {
      assert header[..i + 1][..i] == header[..i];
      if IsTaskColumn(header[i]) {
        idxTask := Some(i);
      } else if IsMemberColumn(header[i]) {
        idxUser := Some(i);
      }
    }
    assert header[..|header|] == header;
  }

  /** The loop over the parts of one member cell. */
  method ReadCell(taskId: string, users: seq<string>) returns (pairs: seq<Pair>)
    ensures pairs == CellPairs(taskId, users)
  {
    pairs := [];
    for j := 0 to |users|
      invariant pairs == CellPairs(taskId, users[..j])
    {
      assert users[..j + 1][..j] == users[..j];
      var u := Strip(users[j]);
      if u != "" {
        var name := CleanMember(u);
        if name != "" && IsAlpha(name) {
          pairs := pairs + [Pair(taskId, name)];
        }
      }
    }
    assert users[..|users|] == users;
  }

  /** One pass of the data-row loop. */
  method ReadRow(row: string, it: nat, iu: nat) returns (pairs: seq<Pair>)
    ensures pairs == RowPairs(row, it, iu)
  {
    if IsSeparatorRow(row) {
      return [];
    }
    var cells := Cells(row);
    if |cells| <= it || |cells| <= iu {
      return [];
    }
    var taskId := Strip(cells[it]);
    var userCell := Strip(cells[iu]);
    if taskId == "" || userCell == "" {
      return [];
    }
    pairs := ReadCell(taskId, Split(userCell, UserSeparators));
  }

  /** The data-row loop over the lines after the header (and delimiter row). */
  method ReadRows(rows: seq<string>, it: nat, iu: nat) returns (mapping: seq<Pair>)
    ensures mapping == RowsPairs(rows, it, iu)
  {
    mapping := [];
    for i := 0 to |rows|
      invariant mapping == RowsPairs(rows[..i], it, iu)
    {
      RowsPairsPrefix(rows, i, it, iu);
      var pairs := ReadRow(rows[i], it, iu);
      mapping := mapping + pairs;
    }
    assert rows[..|rows|] == rows;
  }

  /** One pass of the table loop: header and separator search, column search, data rows. */
  method ScanTable(lines: seq<string>) returns (mapping: seq<Pair>)
    ensures mapping == TableMapping(lines)
  {
    if |lines| < 2 {
      return [];
    }
    var d := FindSeparator(lines);
    var headerIdx := if d.Some? && d.value > 0 then d.value - 1 else 0;
    var dataStart := if d.Some? then d.value + 1 else 1;
    assert headerIdx == HeaderIndex(lines) && dataStart == DataStart(lines);
    var header := Header(lines[headerIdx]);
    var idxTask, idxUser := FindColumns(header);
    if idxTask.None? || idxUser.None? {
      return [];
    }
    mapping := ReadRows(lines[dataStart..], idxTask.value, idxUser.value);
  }

  /** `extract_mapping_user_task` with its loops: the first table that yields pairs wins. */
  method ExtractMappingUserTask(text: string) returns (r: Option<seq<Pair>>)
    ensures r == ExtractMapping(text)
  {
    var ts := Tables(text);
    for i := 0 to |ts|
      invariant FirstSome(ts[i..], TableResult) == FirstSome(ts, TableResult)
    {
      assert ts[i..][0] == ts[i] && ts[i..][1..] == ts[i + 1..];
      var mapping := ScanTable(ts[i]);
      if |mapping| > 0 {
        return Some(mapping);
      }
    }
    assert ts[|ts|..] == [];
    r := None;
  }
}
