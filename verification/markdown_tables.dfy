/**
 * Pipe tables in the model's Markdown replies, as the Python scripts read them: the
 * runs of lines that `re.findall(r"((?:\|[^\n]*\|\n)+)", text)` returns, the
 * delimiter-row pattern (the pipe-table delimiter row of section 4.10 of the GitHub
 * Flavored Markdown specification), cell splitting, and the two readers built on them:
 * `parse_markdown_table` and the assignment-table scan of the Streamlit page.
 *
 * Both readers take `tbl[0]`, the first character of each match, where the whole match
 * was meant; each is modelled as written (and shown to find nothing) and as intended.
 */
module MarkdownTables {
  import opened Common
  import opened Text

  // ---------------------------------------------------------------- finding the tables

  /** The index of the first pipe of `l`, or `|l|` when there is none. */
  function FirstPipe(l: string): (k: nat)
    ensures k <= |l|
    ensures k < |l| ==> l[k] == '|'
    ensures forall j :: 0 <= j < k ==> l[j] != '|'
  {
    if |l| == 0 || l[0] == '|' then 0 else 1 + FirstPipe(l[1..])
  }

  /** A line that `\|[^\n]*\|` matches whole: it starts and ends with a pipe. */
  predicate IsPipeRow(l: string)
  {
    |l| >= 2 && l[0] == '|' && l[|l| - 1] == '|'
  }

  /** A newline-terminated line in which a match can begin: it ends with a pipe and has another pipe before that. */
  predicate Opens(l: string)
  {
    |l| >= 2 && l[|l| - 1] == '|' && FirstPipe(l) < |l| - 1
  }

  /** The part of an opening line that the match covers: from its first pipe to its end. */
  function OpenPart(l: string): (r: string)
    requires Opens(l)
    ensures IsPipeRow(r)
  {
    l[FirstPipe(l)..]
  }

  /** How many leading lines of `ls` continue a run. */
  function RunLength(ls: seq<string>): (n: nat)
    ensures n <= |ls|
    ensures forall j :: 0 <= j < n ==> IsPipeRow(ls[j])
    ensures n < |ls| ==> !IsPipeRow(ls[n])
  {
    if |ls| == 0 || !IsPipeRow(ls[0]) then 0 else 1 + RunLength(ls[1..])
  }

  /** Every line of every table starts and ends with a pipe, and no table is empty. */
  predicate WellFormedTables(ts: seq<seq<string>>)
  {
    forall i :: 0 <= i < |ts| ==> |ts[i]| >= 1 && forall j :: 0 <= j < |ts[i]| ==> IsPipeRow(ts[i][j])
  }

  /**
   * The matches among the newline-terminated lines `ls`, each as its list of lines: a
   * match opens at the first pipe of a line that ends with a pipe and runs on over the
   * following lines that start and end with one.
   */
  function Runs(ls: seq<string>): seq<seq<string>>
    decreases |ls|
  {
    if |ls| == 0 then []
    else if Opens(ls[0]) then
      var n := RunLength(ls[1..]);
      [[OpenPart(ls[0])] + ls[1..1 + n]] + Runs(ls[1 + n..])
    else Runs(ls[1..])
  }

  /** The lines of `text` that a newline ends; the text after the last newline can never be part of a match. */
  function TerminatedLines(text: string): seq<string>
  {
    var pieces := Split(text, {'\n'});
    pieces[..|pieces| - 1]
  }

  /** Putting a well-formed table in front of well-formed tables keeps them well formed. */
  lemma {:induction false} WellFormedCons(t: seq<string>, ts: seq<seq<string>>)
    requires |t| >= 1 && forall j :: 0 <= j < |t| ==> IsPipeRow(t[j])
    requires WellFormedTables(ts)
    ensures WellFormedTables([t] + ts)
  {
    var r := [t] + ts;
    forall i | 0 <= i < |r| ensures |r[i]| >= 1 && forall j :: 0 <= j < |r[i]| ==> IsPipeRow(r[i][j]) {
      if i > 0 {
        assert r[i] == ts[i - 1];
      }
    }
  }

  /** Every line of every run starts and ends with a pipe, and no run is empty. */
  lemma {:induction false} RunsWellFormed(ls: seq<string>)
    ensures WellFormedTables(Runs(ls))
    decreases |ls|
  {
    if |ls| > 0 {
      if Opens(ls[0]) {
        var n := RunLength(ls[1..]);
        RunsWellFormed(ls[1 + n..]);
        var first := [OpenPart(ls[0])] + ls[1..1 + n];
        forall j | 0 <= j < |first| ensures IsPipeRow(first[j]) {
          if j > 0 {
            assert first[j] == ls[1..][j - 1];
          }
        }
        WellFormedCons(first, Runs(ls[1 + n..]));
        assert Runs(ls) == [first] + Runs(ls[1 + n..]);
      } else {
        RunsWellFormed(ls[1..]);
      }
    }
  }

  /** `re.findall` of the table pattern over `text`, each match split into its lines. */
  function Tables(text: string): (ts: seq<seq<string>>)
    ensures WellFormedTables(ts)
  {
    RunsWellFormed(TerminatedLines(text));
    Runs(TerminatedLines(text))
  }

  /** A line without any pipe opens nothing, so lines without pipes contribute no table. */
  lemma {:induction false} NoPipeNoTables(ls: seq<string>)
    requires forall i, j :: 0 <= i < |ls| && 0 <= j < |ls[i]| ==> ls[i][j] != '|'
    ensures Runs(ls) == []
    decreases |ls|
  {
    if |ls| > 0 {
      assert !Opens(ls[0]);
      NoPipeNoTables(ls[1..]);
    }
  }

  // ---------------------------------------------------------------- delimiter rows and cells

  /** `:?-+:?`: at least one dash, with an optional colon on either side. */
  predicate IsDashCore(c: string)
  {
    var b := Unframed(c);
    |b| > 0 && forall i :: 0 <= i < |b| ==> b[i] == '-'
  }

  /** `c` without one leading and one trailing colon, where it has them. */
  function Unframed(c: string): (b: string)
    ensures forall i :: 0 <= i < |b| ==> b[i] in c
  {
    var a := if |c| > 0 && c[0] == ':' then c[1..] else c;
    if |a| > 0 && a[|a| - 1] == ':' then a[..|a| - 1] else a
  }

  /** `\s*:?-+:?\s*`: one cell of a delimiter row. */
  predicate IsDashCell(p: string)
  {
    IsDashCore(Strip(p))
  }

  predicate AllDashCells(ps: seq<string>)
  {
    forall i :: 0 <= i < |ps| ==> IsDashCell(ps[i])
  }

  /**
   * `^\|\s*:?-+:?\s*(\|\s*:?-+:?\s*)*\|?$`: a pipe, then one or more dash cells separated
   * by pipes, then an optional closing pipe.
   */
  predicate IsSeparatorRow(l: string)
  {
    |l| >= 1 && l[0] == '|' &&
    var ps := Split(l[1..], {'|'});
    AllDashCells(ps) || (|ps| >= 2 && ps[|ps| - 1] == "" && AllDashCells(ps[..|ps| - 1]))
  }

  lemma {:induction false} DashCoreHasDash(c: string)
    requires IsDashCore(c)
    ensures exists i :: 0 <= i < |c| && c[i] == '-'
  {
    var b := Unframed(c);
    assert b[0] == '-' && b[0] in c;
  }

  lemma {:induction false} DashCellHasDash(p: string)
    requires IsDashCell(p)
    ensures exists i :: 0 <= i < |p| && p[i] == '-'
  {
    var c := Strip(p);
    DashCoreHasDash(c);
    var i :| 0 <= i < |c| && c[i] == '-';
    var t := TrimStart(p, Whitespace);
    assert c == TrimEnd(t, Whitespace);
    assert t[i] == '-';
    assert p[|p| - |t| + i] == '-';
  }

  /** The first piece after the leading pipe of a delimiter row is a dash cell. */
  lemma {:induction false} SeparatorFirstCell(l: string)
    requires IsSeparatorRow(l)
    ensures IsDashCell(Split(l[1..], {'|'})[0])
  {
    FirstDashCell(Split(l[1..], {'|'}));
  }

  /** When all pieces, or all but the last, are dash cells, the first piece is one. */
  lemma FirstDashCell(ps: seq<string>)
    requires |ps| >= 1
    requires AllDashCells(ps) || (|ps| >= 2 && AllDashCells(ps[..|ps| - 1]))
    ensures IsDashCell(ps[0])
  {
    if !AllDashCells(ps) {
      assert ps[..|ps| - 1][0] == ps[0];
    }
  }

  /** A delimiter row holds at least one dash, so a row of text cells is never one. */
  lemma {:induction false} SeparatorHasDash(l: string)
    requires IsSeparatorRow(l)
    ensures exists i :: 0 <= i < |l| && l[i] == '-'
  {
    var rest := l[1..];
    var p := Split(rest, {'|'})[0];
    SeparatorFirstCell(l);
    DashCellHasDash(p);
    var i :| 0 <= i < |p| && p[i] == '-';
    SplitFirstIsPrefix(rest, {'|'});
    assert rest[..|p|] == p;
    assert rest[i] == '-';
    assert l[1 + i] == '-';
  }

  /** Each piece stripped. */
  function StripEach(ps: seq<string>): (r: seq<string>)
    ensures |r| == |ps|
  {
    if |ps| == 0 then [] else [Strip(ps[0])] + StripEach(ps[1..])
  }

  lemma {:induction false} StripEachAt(ps: seq<string>, i: nat)
    requires i < |ps|
    ensures StripEach(ps)[i] == Strip(ps[i])
    decreases i
  {
    if i > 0 {
      StripEachAt(ps[1..], i - 1);
    }
  }

  /** `[c.strip() for c in row.strip("|").split("|")]`. */
  function Cells(row: string): (cs: seq<string>)
    ensures |cs| >= 1
  {
    StripEach(Split(StripOf(row, {'|'}), {'|'}))
  }

  /** `[line for line in s.split('\n') if line.strip().startswith('|')]`. */
  function PipeLines(s: string): seq<string>
  {
    KeepPipeLines(Split(s, {'\n'}))
  }

  function KeepPipeLines(ls: seq<string>): (r: seq<string>)
    ensures |r| <= |ls|
    ensures forall l :: l in r <==> l in ls && StartsWith(Strip(l), "|")
  {
    if |ls| == 0 then []
    else (if StartsWith(Strip(ls[0]), "|") then [ls[0]] else []) + KeepPipeLines(ls[1..])
  }

  /** The first character of a match is a pipe, and splitting that one character yields one line. */
  lemma {:induction false} FirstCharLines()
    ensures PipeLines("|") == ["|"]
  {
    SplitNoSeparator("|", {'\n'});
    StripPlain("|");
    assert ["|"][1..] == [];
  }

  // ---------------------------------------------------------------- parse_markdown_table

  /** A table read into columns and rows of cells. */
  datatype Frame = Frame(columns: seq<string>, rows: seq<seq<string>>)

  /** The index of the first delimiter row of `lines`, if any. */
  function FirstSeparator(lines: seq<string>): (d: Option<nat>)
    ensures d.Some? ==> d.value < |lines| && IsSeparatorRow(lines[d.value])
    ensures d.Some? ==> forall j :: 0 <= j < d.value ==> !IsSeparatorRow(lines[j])
    ensures d.None? ==> forall j :: 0 <= j < |lines| ==> !IsSeparatorRow(lines[j])
  {
    if |lines| == 0 then None
    else if IsSeparatorRow(lines[0]) then Some(0)
    else match FirstSeparator(lines[1..])
      case None => None
      case Some(d) => Some(d + 1)
  }

  /** `f` of every element of `xs` whose result has `width` entries, in order. */
  function KeepOfWidth<A>(xs: seq<A>, f: A -> seq<string>, width: nat): (rows: seq<seq<string>>)
    ensures |rows| <= |xs|
  {
    if |xs| == 0 then []
    else
      var last := f(xs[|xs| - 1]);
      KeepOfWidth(xs[..|xs| - 1], f, width) + (if |last| == width then [last] else [])
  }

  lemma {:induction false} KeepOfWidthMembers<A>(xs: seq<A>, f: A -> seq<string>, width: nat)
    ensures forall r :: r in KeepOfWidth(xs, f, width) ==> |r| == width
    ensures forall r :: r in KeepOfWidth(xs, f, width) ==> exists i :: 0 <= i < |xs| && f(xs[i]) == r
    ensures forall i :: 0 <= i < |xs| && |f(xs[i])| == width ==> f(xs[i]) in KeepOfWidth(xs, f, width)
    decreases |xs|
  {
    if |xs| > 0 {
      var n := |xs| - 1;
      var init := xs[..n];
      var last := f(xs[n]);
      KeepOfWidthMembers(init, f, width);
      var rows := KeepOfWidth(xs, f, width);
      var front := KeepOfWidth(init, f, width);
      assert rows == front + (if |last| == width then [last] else []);
      forall r | r in rows ensures exists i :: 0 <= i < |xs| && f(xs[i]) == r {
        if r in front {
          var i :| 0 <= i < |init| && f(init[i]) == r;
          assert init[i] == xs[i];
        } else {
          assert f(xs[n]) == r;
        }
      }
      forall i | 0 <= i < |xs| && |f(xs[i])| == width ensures f(xs[i]) in rows {
        if i < n {
          assert init[i] == xs[i];
        }
      }
    }
  }

  /** The cells of every line of `lines` that has exactly `width` cells, in order. */
  function MatchingRows(lines: seq<string>, width: nat): seq<seq<string>>
  {
    KeepOfWidth(lines, Cells, width)
  }

  /** The rows kept are exactly the cells of the lines of the requested width. */
  lemma {:induction false} MatchingRowsMembers(lines: seq<string>, width: nat)
    ensures forall r :: r in MatchingRows(lines, width) ==> |r| == width
    ensures forall r :: r in MatchingRows(lines, width) ==> exists i :: 0 <= i < |lines| && Cells(lines[i]) == r
    ensures forall i :: 0 <= i < |lines| && |Cells(lines[i])| == width ==> Cells(lines[i]) in MatchingRows(lines, width)
  {
    KeepOfWidthMembers(lines, Cells, width);
  }

  predicate DistinctColumns(cols: seq<string>)
  {
    forall i, j :: 0 <= i < j < |cols| ==> cols[i] != cols[j]
  }

  /** Where the header of a table is: the line before its first delimiter row, or line 0. */
  function HeaderIndex(lines: seq<string>): (h: nat)
    requires |lines| >= 1
    ensures h < |lines|
  {
    var d := FirstSeparator(lines);
    if d.Some? && d.value > 0 then d.value - 1 else 0
  }

  /** Where the data of a table starts: after its first delimiter row when that has a line before it, else line 1. */
  function DataStart(lines: seq<string>): (k: nat)
    requires |lines| >= 1
    ensures 1 <= k <= |lines|
  {
    var d := FirstSeparator(lines);
    if d.Some? && d.value > 0 then d.value + 1 else 1
  }

  /**
   * One table as `parse_markdown_table` reads it: nothing for fewer than two lines, for no
   * data row of the header's width, or for repeated column names.
   */
  function TableFrame(lines: seq<string>): Option<Frame>
  {
    if |lines| < 2 then None
    else
      var header := Cells(lines[HeaderIndex(lines)]);
      var data := MatchingRows(lines[DataStart(lines)..], |header|);
      if |data| == 0 || !DistinctColumns(header) then None else Some(Frame(header, data))
  }

  /**
   * A frame read from a table has the header line's cells as columns, no repeated column,
   * and at least one row, each one of the table's later lines as wide as the header.
   */
  lemma {:induction false} TableFrameSpec(lines: seq<string>)
    ensures var f := TableFrame(lines);
      f.Some? ==> (|lines| >= 2 && f.value.columns == Cells(lines[HeaderIndex(lines)])
        && f.value.rows == MatchingRows(lines[DataStart(lines)..], |f.value.columns|)
        && |f.value.rows| > 0 && DistinctColumns(f.value.columns)
        && (forall r :: r in f.value.rows ==> |r| == |f.value.columns|))
    ensures |lines| < 2 ==> TableFrame(lines).None?
  {
    if |lines| >= 2 {
      MatchingRowsMembers(lines[DataStart(lines)..], |Cells(lines[HeaderIndex(lines)])|);
    }
  }

  /** The result of the first element of `xs` for which `f` gives one: a loop that stops there. */
  function FirstSome<A, B>(xs: seq<A>, f: A -> Option<B>): Option<B>
  {
    if |xs| == 0 then None
    else if f(xs[0]).Some? then f(xs[0])
    else FirstSome(xs[1..], f)
  }

  /** `FirstSome` finds nothing exactly when every element gives nothing, and otherwise the first result. */
  lemma {:induction false} FirstSomeSpec<A, B>(xs: seq<A>, f: A -> Option<B>)
    ensures FirstSome(xs, f).None? <==> forall i :: 0 <= i < |xs| ==> f(xs[i]).None?
    ensures FirstSome(xs, f).Some? ==>
      exists i :: 0 <= i < |xs| && f(xs[i]) == FirstSome(xs, f) && forall j :: 0 <= j < i ==> f(xs[j]).None?
  {
    FirstSomeNone(xs, f);
    if FirstSome(xs, f).Some? {
      var i := FirstSomeAt(xs, f);
    }
  }

  /** `FirstSome` finds nothing exactly when every element gives nothing. */
  lemma {:induction false} FirstSomeNone<A, B>(xs: seq<A>, f: A -> Option<B>)
    ensures FirstSome(xs, f).None? <==> forall i :: 0 <= i < |xs| ==> f(xs[i]).None?
  {
    if |xs| > 0 && f(xs[0]).None? {
      var tail := xs[1..];
      FirstSomeNone(tail, f);
      assert forall j :: 1 <= j < |xs| ==> xs[j] == tail[j - 1];
    }
  }

  /** A result of `FirstSome` is the result of an element before which every element gives nothing. */
  lemma {:induction false} FirstSomeAt<A, B>(xs: seq<A>, f: A -> Option<B>) returns (i: nat)
    requires FirstSome(xs, f).Some?
    ensures i < |xs| && f(xs[i]) == FirstSome(xs, f) && forall j :: 0 <= j < i ==> f(xs[j]).None?
  {
    if f(xs[0]).Some? {
      i := 0;
    } else {
      var tail := xs[1..];
      var k := FirstSomeAt(tail, f);
      i := k + 1;
      assert forall j :: 1 <= j < |xs| ==> xs[j] == tail[j - 1];
    }
  }

  /** `parse_markdown_table` as written: every candidate is the lines of `tbl[0]`, the match's first character. */
  function ParseMarkdownTableAsWritten(text: string): Option<Frame>
  {
    var ts := Tables(text);
    FirstSome(seq(|ts|, i requires 0 <= i < |ts| => PipeLines([ts[i][0][0]])), TableFrame)
  }

  /** As written, the parser never returns a table, whatever the text. */
  lemma {:induction false} ParseMarkdownTableAsWrittenIsNone(text: string)
    ensures ParseMarkdownTableAsWritten(text).None?
  {
    var ts := Tables(text);
    var cands := seq(|ts|, i requires 0 <= i < |ts| => PipeLines([ts[i][0][0]]));
    forall i | 0 <= i < |cands| ensures TableFrame(cands[i]).None? {
      assert [ts[i][0][0]] == "|";
      FirstCharLines();
    }
    FirstSomeSpec(cands, TableFrame);
  }

  /** `parse_markdown_table` as intended: the candidates are the matched tables themselves. */
  function ParseMarkdownTable(text: string): Option<Frame>
  {
    FirstSome(Tables(text), TableFrame)
  }

  /**
   * As intended, the parser returns the frame of the first matched table that has a data
   * row of the header's width and no repeated column: at least one row, every row as
   * wide as the header; it returns nothing exactly when no matched table gives a frame.
   */
  lemma {:induction false} ParseMarkdownTableSpec(text: string)
    ensures var f := ParseMarkdownTable(text);
      f.Some? ==> (|f.value.rows| > 0 && DistinctColumns(f.value.columns)
        && forall r :: r in f.value.rows ==> |r| == |f.value.columns|)
    ensures ParseMarkdownTable(text).None? <==> forall i :: 0 <= i < |Tables(text)| ==> TableFrame(Tables(text)[i]).None?
  {
    var ts := Tables(text);
    FirstSomeSpec(ts, TableFrame);
    if ParseMarkdownTable(text).Some? {
      var i :| 0 <= i < |ts| && TableFrame(ts[i]) == FirstSome(ts, TableFrame);
      TableFrameSpec(ts[i]);
    }
  }

  /** The delimiter-row search: the loop that stops at the first delimiter row. */
  method FindSeparator(lines: seq<string>) returns (d: Option<nat>)
    ensures d == FirstSeparator(lines)
  {
    d := None;
    var i := 0;
    while i < |lines|
      invariant 0 <= i <= |lines|
      invariant forall j :: 0 <= j < i ==> !IsSeparatorRow(lines[j])
    {
      if IsSeparatorRow(lines[i]) {
        d := Some(i);
        return;
      }
      i := i + 1;
    }
  }

  /** The data loop: the cells of each line with the header's width, appended in order. */
  method CollectRows(lines: seq<string>, width: nat) returns (data: seq<seq<string>>)
    ensures data == MatchingRows(lines, width)
  {
    data := [];
    for i := 0 to |lines|
      invariant data == MatchingRows(lines[..i], width)
    {
      assert lines[..i + 1][..i] == lines[..i];
      var cells := Cells(lines[i]);
      if |cells| == width {
        data := data + [cells];
      }
    }
    assert lines[..|lines|] == lines;
  }

  /** One pass of the table loop of `parse_markdown_table`. */
  method ReadTable(lines: seq<string>) returns (f: Option<Frame>)
    ensures f == TableFrame(lines)
  {
    if |lines| < 2 {
      return None;
    }
    var d := FindSeparator(lines);
    var headerAt, dataFrom := 0, 1;
    if d.Some? && d.value > 0 {
      headerAt, dataFrom := d.value - 1, d.value + 1;
    }
    assert headerAt == HeaderIndex(lines) && dataFrom == DataStart(lines);
    var header := Cells(lines[headerAt]);
    var dataLines := lines[dataFrom..];
    var data := CollectRows(dataLines, |header|);
    if |data| > 0 && DistinctColumns(header) {
      f := Some(Frame(header, data));
    } else {
      f := None;
    }
  }

  /** The corrected parser as the loop over the matched tables that returns the first frame. */
  method ParseTables(text: string) returns (f: Option<Frame>)
    ensures f == ParseMarkdownTable(text)
  {
    var ts := Tables(text);
    var i := 0;
    while i < |ts|
      invariant 0 <= i <= |ts|
      invariant FirstSome(ts[i..], TableFrame) == FirstSome(ts, TableFrame)
    {
      assert ts[i..][0] == ts[i] && ts[i..][1..] == ts[i + 1..];
      f := ReadTable(ts[i]);
      if f.Some? {
        return;
      }
      i := i + 1;
    }
    f := None;
  }

  // ---------------------------------------------------------------- the assignment-table scan

  const TaskIdColumn: string := "Task ID"
  const MemberColumnMarker: string := "Th\U{00E0}nh vi\U{00EA}n"

  /** The scan's header test: a `Task ID` column and a column naming members or users. */
  predicate IsAssignmentHeader(header: seq<string>)
  {
    TaskIdColumn in header
    && exists h :: h in header && (Contains(h, MemberColumnMarker) || Contains(Lower(h), "user"))
  }

  /** One table as the scan reads it: the header is line 0 and every later line of its width is data, delimiter row included. */
  function AssignmentFrame(lines: seq<string>): Option<Frame>
  {
    if |lines| < 2 || !IsAssignmentHeader(Cells(lines[0])) then None
    else Some(Frame(Cells(lines[0]), MatchingRows(lines[1..], |Cells(lines[0])|)))
  }

  /** The scan as written, over the lines of `tbl[0]`. */
  function AssignmentTableAsWritten(text: string): Option<Frame>
  {
    var ts := Tables(text);
    FirstSome(seq(|ts|, i requires 0 <= i < |ts| => PipeLines([ts[i][0][0]])), AssignmentFrame)
  }

  /** As written, the scan never finds the assignment table. */
  lemma {:induction false} AssignmentTableAsWrittenIsNone(text: string)
    ensures AssignmentTableAsWritten(text).None?
  {
    var ts := Tables(text);
    var cands := seq(|ts|, i requires 0 <= i < |ts| => PipeLines([ts[i][0][0]]));
    forall i | 0 <= i < |cands| ensures AssignmentFrame(cands[i]).None? {
      assert [ts[i][0][0]] == "|";
      FirstCharLines();
    }
    FirstSomeSpec(cands, AssignmentFrame);
  }

  /** The scan as intended, over the matched tables themselves. */
  function AssignmentTable(text: string): Option<Frame>
  {
    FirstSome(Tables(text), AssignmentFrame)
  }

  /**
   * As intended, the scan finds a table exactly when some matched table has two lines and
   * the assignment header on line 0; what it finds has that header and rows of its width.
   */
  lemma {:induction false} AssignmentTableSpec(text: string)
    ensures var f := AssignmentTable(text);
      f.Some? ==> IsAssignmentHeader(f.value.columns) && forall r :: r in f.value.rows ==> |r| == |f.value.columns|
    ensures AssignmentTable(text).None? <==> forall i :: 0 <= i < |Tables(text)| ==>
      |Tables(text)[i]| < 2 || !IsAssignmentHeader(Cells(Tables(text)[i][0]))
  {
    var ts := Tables(text);
    FirstSomeSpec(ts, AssignmentFrame);
    assert forall i :: 0 <= i < |ts| ==> (AssignmentFrame(ts[i]).None? <==> |ts[i]| < 2 || !IsAssignmentHeader(Cells(ts[i][0])));
    if AssignmentTable(text).Some? {
      var i :| 0 <= i < |ts| && AssignmentFrame(ts[i]) == AssignmentTable(text);
      MatchingRowsMembers(ts[i][1..], |Cells(ts[i][0])|);
    }
  }

  /** The corrected scan as the loop that stops at the first table with the assignment header. */
  method ScanAssignmentTable(text: string) returns (f: Option<Frame>)
    ensures f == AssignmentTable(text)
  {
    var ts := Tables(text);
    f := None;
    for i := 0 to |ts|
      invariant FirstSome(ts[i..], AssignmentFrame) == FirstSome(ts, AssignmentFrame)
    {
      assert ts[i..][0] == ts[i] && ts[i..][1..] == ts[i + 1..];
      var lines := ts[i];
      if |lines| < 2 {
        continue;
      }
      var header := Cells(lines[0]);
      if IsAssignmentHeader(header) {
        var data := CollectRows(lines[1..], |header|);
        f := Some(Frame(header, data));
        return;
      }
    }
    assert ts[|ts|..] == [];
  }

  // ---------------------------------------------------------------- a table the intended reader finds

  /** A character that can stand alone in a cell: no pipe, no dash, no whitespace. */
  predicate PlainCellChar(c: char)
  {
    c != '|' && c != '-' && c !in Whitespace
  }

  /** A one-column table: header `h`, a delimiter row, one data row `v` (e.g. `|a|`, `|-|`, `|1|`). */
  function OneColumnText(h: char, v: char): string
  {
    ['|', h, '|'] + "\n" + "|-|" + "\n" + ['|', v, '|'] + "\n"
  }

  function OneColumnLines(h: char, v: char): seq<string>
  {
    [['|', h, '|'], "|-|", ['|', v, '|']]
  }

  /** A line without newlines, then a newline: splitting peels that line off. */
  lemma {:induction false} LineThen(a: string, rest: string)
    requires forall i :: 0 <= i < |a| ==> a[i] != '\n'
    ensures Split(a + "\n" + rest, {'\n'}) == [a] + Split(rest, {'\n'})
  {
    SplitAt(a, '\n', rest, {'\n'});
    assert a + ['\n'] + rest == a + "\n" + rest;
  }

  /** Three newline-terminated lines without newlines split back into those lines. */
  lemma {:induction false} ThreeLines(a: string, b: string, c: string)
    requires forall i :: 0 <= i < |a| ==> a[i] != '\n'
    requires forall i :: 0 <= i < |b| ==> b[i] != '\n'
    requires forall i :: 0 <= i < |c| ==> c[i] != '\n'
    ensures TerminatedLines(a + "\n" + b + "\n" + c + "\n") == [a, b, c]
  {
    var t3 := c + "\n" + "";
    var t2 := b + "\n" + t3;
    var t1 := a + "\n" + t2;
    assert a + "\n" + b + "\n" + c + "\n" == t1;
    assert Split("", {'\n'}) == [""];
    LineThen(c, "");
    LineThen(b, t3);
    LineThen(a, t2);
    var pieces := Split(t1, {'\n'});
    assert pieces == [a, b, c, ""];
    assert pieces[..3] == [a, b, c];
  }

  lemma {:induction false} RunLengthAll(ls: seq<string>)
    requires forall j :: 0 <= j < |ls| ==> IsPipeRow(ls[j])
    ensures RunLength(ls) == |ls|
    decreases |ls|
  {
    if |ls| > 0 {
      assert forall j :: 0 <= j < |ls[1..]| ==> ls[1..][j] == ls[j + 1];
      RunLengthAll(ls[1..]);
    }
  }

  /** Consecutive lines that all start and end with a pipe form one match. */
  lemma {:induction false} OneRun(ls: seq<string>)
    requires |ls| >= 1 && forall j :: 0 <= j < |ls| ==> IsPipeRow(ls[j])
    ensures Runs(ls) == [ls]
  {
    var x := ls[0];
    assert IsPipeRow(x);
    assert FirstPipe(x) == 0;
    assert OpenPart(x) == x;
    assert forall j :: 0 <= j < |ls[1..]| ==> ls[1..][j] == ls[j + 1];
    RunLengthAll(ls[1..]);
    assert ls[1..1 + (|ls| - 1)] == ls[1..];
    assert ls[|ls|..] == [];
    assert [x] + ls[1..] == ls;
  }

  /** The one-column table is matched as a single table of its three lines. */
  lemma {:induction false} OneColumnRuns(h: char, v: char)
    requires PlainCellChar(h) && PlainCellChar(v)
    ensures Tables(OneColumnText(h, v)) == [OneColumnLines(h, v)]
  {
    var a, b, c := ['|', h, '|'], "|-|", ['|', v, '|'];
    ThreeLines(a, b, c);
    var ls := OneColumnLines(h, v);
    assert TerminatedLines(OneColumnText(h, v)) == ls;
    assert IsPipeRow(ls[0]) && IsPipeRow(ls[1]) && IsPipeRow(ls[2]);
    OneRun(ls);
  }

  /** A string without whitespace is its own strip. */
  lemma {:induction false} StripPlain(s: string)
    requires forall i :: 0 <= i < |s| ==> s[i] !in Whitespace
    ensures Strip(s) == s
  {
    if |s| > 0 {
      assert s[0] !in Whitespace && s[|s| - 1] !in Whitespace;
    }
    StripOfNoop(s, Whitespace);
  }

  /** A row without a dash is never a delimiter row. */
  lemma {:induction false} NoDashNotSeparator(l: string)
    requires forall i :: 0 <= i < |l| ==> l[i] != '-'
    ensures !IsSeparatorRow(l)
  {
    if IsSeparatorRow(l) {
      SeparatorHasDash(l);
    }
  }

  lemma {:induction false} DashRowIsSeparator()
    ensures IsSeparatorRow("|-|")
  {
    SplitNoSeparator("-", {'|'});
    assert Split("", {'|'}) == [""];
    assert Split("-|", {'|'}) == ["-", ""];
    StripPlain("-");
    assert Unframed("-") == "-";
    assert IsDashCell("-");
    assert ["-", ""][..1] == ["-"];
    assert AllDashCells(["-"]);
    assert "|-|"[1..] == "-|";
  }

  lemma {:induction false} OneColumnSeparator(h: char, v: char)
    requires PlainCellChar(h)
    ensures FirstSeparator(OneColumnLines(h, v)) == Some(1)
  {
    var ls := OneColumnLines(h, v);
    NoDashNotSeparator(ls[0]);
    DashRowIsSeparator();
    assert ls[1..][0] == "|-|";
  }

  /** A one-cell row `|c|` has the single cell `c`. */
  lemma {:induction false} OneCellRow(c: char)
    requires c != '|' && c !in Whitespace
    ensures Cells(['|', c, '|']) == [[c]]
  {
    var row := ['|', c, '|'];
    assert row[1..] == [c, '|'];
    assert LeadingCount([c, '|'], {'|'}) == 0;
    assert LeadingCount(row, {'|'}) == 1;
    assert TrimStart(row, {'|'}) == [c, '|'];
    assert [c, '|'][..1] == [c];
    assert TrailingCount([c], {'|'}) == 0;
    assert TrailingCount([c, '|'], {'|'}) == 1;
    assert TrimEnd([c, '|'], {'|'}) == [c];
    SplitNoSeparator([c], {'|'});
    StripPlain([c]);
    assert StripEach([[c]]) == [Strip([c])];
  }

  /**
   * The intended parser reads a one-column table such as `|a|`, `|-|`, `|1|`; the parser as
   * written finds nothing in it.
   */
  lemma {:induction false} OneColumnTableIsRead(h: char, v: char)
    requires PlainCellChar(h) && PlainCellChar(v)
    ensures ParseMarkdownTable(OneColumnText(h, v)) == Some(Frame([[h]], [[[v]]]))
    ensures ParseMarkdownTableAsWritten(OneColumnText(h, v)) == None
  {
    OneColumnRuns(h, v);
    OneColumnSeparator(h, v);
    OneCellRow(h);
    OneCellRow(v);
    var ls := OneColumnLines(h, v);
    var row := ['|', v, '|'];
    assert ls[2..] == [row];
    assert [row][..0] == [];
    assert MatchingRows([row], 1) == [[[v]]];
    assert TableFrame(ls) == Some(Frame([[h]], [[[v]]]));
    ParseMarkdownTableAsWrittenIsNone(OneColumnText(h, v));
  }
}
