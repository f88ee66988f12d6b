/**
 * `read_file_uploaded` in hackathon-be/model.py: an uploaded task or member list
 * is read as CSV or JSON, chosen by the lower-cased file name's extension, and
 * rendered as one text line per row.
 *
 * The pandas and json libraries are not part of this model: a file's content is
 * given as the frame each reading produces (its `values`, every cell already
 * rendered as Python's `str()` renders it), or as the error that reading raised.
 */
module UploadedFile {
  import opened Common
  import Text
  import Seqs

  /** The rows of a data frame's `values`, one string per cell. */
  type Frame = seq<seq<string>>

  /** What `json.load` gives, with each `pd.DataFrame(...)` call it leads to already made. */
  datatype JsonDoc =
    | JsonArray(frame: Result<Frame>)
      // a top-level list; `frame` is `pd.DataFrame(data)`
    | JsonObject(members: map<string, Result<Frame>>, whole: Result<Frame>)
      // a top-level object; `members[k]` is `pd.DataFrame(data[k])`, `whole` is `pd.DataFrame([data])`
    | JsonOther
      // a top-level string, number, boolean or null
    | JsonBroken(message: string)
      // `json.load` raised

  /** An upload: its name, and what each of the two readers makes of its bytes. */
  datatype Upload = Upload(name: string, csv: Result<Frame>, json: JsonDoc)

  /** The function's possible results. */
  datatype ReadOutcome =
    | Read(frame: Frame, text: string)   // the pair `(df, text)`
    | NotRead                            // the pair `(None, None)`
    | BareNone                           // a plain `None`: no return statement was reached
    | Raised(message: string)            // an exception escapes to the caller

  const CsvSuffix: string := ".csv"
  const JsonSuffix: string := ".json"
  const CellSeparator: string := " - "

  /** One row as a line: its first cell, then `" - "` and the second cell when there is one. */
  function RenderRow(row: seq<string>): (r: Result<string>)
    ensures |row| == 0 <==> r.Err?
  {
    if |row| == 0 then Err("index 0 is out of bounds for axis 0 with size 0")
    else if |row| == 1 then Ok(row[0])
    else Ok(row[0] + CellSeparator + row[1])
  }

  /** A rendered line survives the `if x.strip()` filter. */
  predicate NonBlank(line: string)
  {
    Text.Strip(line) != ""
  }

  /** The rendered lines of a frame whose rows all have a first cell. */
  function Lines(frame: Frame): seq<string>
    requires RowsFilled(frame)
  {
    seq(|frame|, i requires 0 <= i < |frame| => RenderRow(frame[i]).value)
  }

  /** The text of a frame: its non-blank lines joined by newlines; a row without cells raises. */
  function FrameText(frame: Frame): Result<string>
  {
    if !RowsFilled(frame) then Err("index 0 is out of bounds for axis 0 with size 0")
    else Ok(Text.Join(Seqs.Filter(Lines(frame), NonBlank), "\n"))
  }

  /** A key argument counts only when it is a non-empty string (`if key_tasks and ...`). */
  predicate Given(key: Option<string>)
  {
    key.Some? && key.value != ""
  }

  /** The frame read from a JSON object: the tasks key, else the members key, else the object itself. */
  function ObjectFrame(members: map<string, Result<Frame>>, whole: Result<Frame>,
                       keyTasks: Option<string>, keyMembers: Option<string>): Result<Frame>
  {
    if Given(keyTasks) && keyTasks.value in members then members[keyTasks.value]
    else if Given(keyMembers) && keyMembers.value in members then members[keyMembers.value]
    else whole
  }

  /** The JSON branch: every exception inside it is caught and gives `(None, None)`. */
  function ReadJson(doc: JsonDoc, keyTasks: Option<string>, keyMembers: Option<string>): ReadOutcome
  {
    match doc
    case JsonBroken(_) => NotRead
    case JsonOther => BareNone
    case JsonArray(frame) => CaughtFrame(frame)
    case JsonObject(members, whole) => CaughtFrame(ObjectFrame(members, whole, keyTasks, keyMembers))
  }

  /** A frame read inside the `try`: any error becomes `(None, None)`. */
  function CaughtFrame(frame: Result<Frame>): ReadOutcome
  {
    match frame
    case Err(_) => NotRead
    case Ok(f) =>
      match FrameText(f)
      case Err(_) => NotRead
      case Ok(t) => Read(f, t)
  }

  /** `read_file_uploaded(uploaded_file, key_tasks, key_members)`. */
  function ReadFileUploaded(file: Option<Upload>, keyTasks: Option<string>, keyMembers: Option<string>): ReadOutcome
  {
    if file.None? then NotRead
    else
      var name := Text.Lower(file.value.name);
      if Text.EndsWith(name, CsvSuffix) then
        match file.value.csv
        case Err(e) => Raised(e)
        case Ok(f) =>
          match FrameText(f)
          case Err(e) => Raised(e)
          case Ok(t) => Read(f, t)
      else if Text.EndsWith(name, JsonSuffix) then ReadJson(file.value.json, keyTasks, keyMembers)
      else NotRead
  }

  /**
   * No file, or a name that ends in neither `.csv` nor `.json` in any letter
   * case, gives `(None, None)`; only those two extensions ever give a frame.
   */
  lemma ReadFileUploadedDispatch(file: Option<Upload>, keyTasks: Option<string>, keyMembers: Option<string>)
    ensures file.None? ==> ReadFileUploaded(file, keyTasks, keyMembers) == NotRead
    ensures file.Some? && !Text.EndsWith(Text.Lower(file.value.name), CsvSuffix)
            && !Text.EndsWith(Text.Lower(file.value.name), JsonSuffix)
            ==> ReadFileUploaded(file, keyTasks, keyMembers) == NotRead
    ensures ReadFileUploaded(file, keyTasks, keyMembers).Read? ==>
              file.Some? && (Text.EndsWith(Text.Lower(file.value.name), CsvSuffix)
                             || Text.EndsWith(Text.Lower(file.value.name), JsonSuffix))
    ensures ReadFileUploaded(file, keyTasks, keyMembers).Raised? ==>
              file.Some? && Text.EndsWith(Text.Lower(file.value.name), CsvSuffix)
  {
  }

  /** Only the CSV branch can raise; only a JSON document that is not a list or object gives a bare `None`. */
  lemma JsonNeverRaises(doc: JsonDoc, keyTasks: Option<string>, keyMembers: Option<string>)
    ensures !ReadJson(doc, keyTasks, keyMembers).Raised?
    ensures ReadJson(doc, keyTasks, keyMembers).BareNone? <==> doc.JsonOther?
  {
  }

  /** The tasks key wins over the members key, and the whole object is read when neither is present. */
  lemma ObjectFrameChoice(members: map<string, Result<Frame>>, whole: Result<Frame>,
                          keyTasks: Option<string>, keyMembers: Option<string>)
    ensures Given(keyTasks) && keyTasks.value in members
            ==> ObjectFrame(members, whole, keyTasks, keyMembers) == members[keyTasks.value]
    ensures !(Given(keyTasks) && keyTasks.value in members) && Given(keyMembers) && keyMembers.value in members
            ==> ObjectFrame(members, whole, keyTasks, keyMembers) == members[keyMembers.value]
    ensures !(Given(keyTasks) && keyTasks.value in members) && !(Given(keyMembers) && keyMembers.value in members)
            ==> ObjectFrame(members, whole, keyTasks, keyMembers) == whole
  {
  }

  /** Every row has a first cell, so the frame renders without raising. */
  predicate RowsFilled(frame: Frame)
  {
    forall i :: 0 <= i < |frame| ==> |frame[i]| > 0
  }

  /** No cell of the frame holds the character `c`. */
  predicate CellsAvoid(frame: Frame, c: char)
  {
    forall i, j :: 0 <= i < |frame| && 0 <= j < |frame[i]| ==> Text.Avoids(frame[i][j], {c})
  }

  /**
   * The text of a frame: when at least one line is kept and no cell holds a
   * newline, splitting it on newlines gives exactly the non-blank rendered
   * lines, in row order, and never more lines than rows.
   */
  lemma FrameTextLines(frame: Frame, t: string)
    requires FrameText(frame) == Ok(t)
    requires CellsAvoid(frame, '\n')
    requires Seqs.Count(Lines(frame), NonBlank) > 0
    ensures Text.Split(t, {'\n'}) == Seqs.Filter(Lines(frame), NonBlank)
    ensures |Text.Split(t, {'\n'})| <= |frame|
    ensures forall k :: 0 <= k < |Text.Split(t, {'\n'})| ==> NonBlank(Text.Split(t, {'\n'})[k])
  {
    var kept := Seqs.Filter(Lines(frame), NonBlank);
    Seqs.FilterLength(Lines(frame), NonBlank);
    KeptLinesAvoid(frame, '\n');
    Text.SplitJoin(kept, '\n');
  }

  /** No kept line holds a character that no cell holds. */
  lemma KeptLinesAvoid(frame: Frame, c: char)
    requires RowsFilled(frame) && CellsAvoid(frame, c) && c != ' ' && c != '-'
    ensures forall k :: 0 <= k < |Seqs.Filter(Lines(frame), NonBlank)| ==> Text.Avoids(Seqs.Filter(Lines(frame), NonBlank)[k], {c})
  {
    var lines := Lines(frame);
    var kept := Seqs.Filter(lines, NonBlank);
    forall k | 0 <= k < |kept| ensures Text.Avoids(kept[k], {c}) {
      Seqs.FilterMembers(lines, NonBlank, kept[k]);
      var q :| 0 <= q < |lines| && lines[q] == kept[k];
      RenderedAvoids(frame[q], c);
    }
  }

  /** A row's line holds a character only if one of its first two cells does, or the separator does. */
  lemma RenderedAvoids(row: seq<string>, c: char)
    requires |row| > 0 && c != ' ' && c != '-'
    requires forall j :: 0 <= j < |row| ==> Text.Avoids(row[j], {c})
    ensures Text.Avoids(RenderRow(row).value, {c})
  {
    if |row| > 1 {
      var line := row[0] + CellSeparator + row[1];
      forall k | 0 <= k < |line| ensures line[k] != c {
        if k < |row[0]| {
          assert line[k] == row[0][k];
        } else if k < |row[0]| + 3 {
          assert line[k] == CellSeparator[k - |row[0]|];
        } else {
          assert line[k] == row[1][k - |row[0]| - 3];
        }
      }
    }
  }

  /**
   * Each rendered line starts with its row's first cell and is followed by
   * nothing for a one-column row, or by the separator and the second cell.
   */
  lemma RenderedStartsWithFirstCell(row: seq<string>)
    requires |row| > 0
    ensures Text.StartsWith(RenderRow(row).value, row[0])
    ensures RenderRow(row).value[|row[0]|..] == if |row| > 1 then CellSeparator + row[1] else ""
  {
    if |row| > 1 {
      assert (row[0] + CellSeparator + row[1])[..|row[0]|] == row[0];
    }
  }
}
