/** The formatting rules of the log window: the records it asks for, the
    success and error counts, and the cells of one table row. Sizes and
    percentages other than the zero cases are floating-point text and are
    kept symbolic. */
module LogsView {
  import opened Wrappers
  import opened Types
  import Text
  import Json
  import Optimizer

  /** The number of records the window asks the main process for. */
  const RequestedRecords := 200

  /** What the window lists for a given log file. */
  function Displayed(log: Option<string>): (r: seq<Json.Json>)
    ensures |r| <= RequestedRecords
  {
    Optimizer.GetProcessedFiles(log, RequestedRecords)
  }

  // ---------------------------------------------------------------------------
  // Counts

  function CountSuccess(logs: seq<ProcessedFile>, success: bool): (n: nat)
    ensures n <= |logs|
  {
    if logs == [] then 0
    else (if logs[0].success == success then 1 else 0) + CountSuccess(logs[1..], success)
  }

  /** The success count plus the error count is the total shown. */
  lemma {:induction false} CountsAddUp(logs: seq<ProcessedFile>)
    ensures CountSuccess(logs, true) + CountSuccess(logs, false) == |logs|
  {
    if logs != [] {
      CountsAddUp(logs[1..]);
    }
  }

  // ---------------------------------------------------------------------------
  // Cells

  /** A table cell: literal text, or a size or percentage whose floating-point
      rendering is not modelled. */
  datatype Cell = Literal(text: string) | FileSize(bytes: nat) | Savings(original: nat, optimized: nat)

  const Dash := Literal("-")

  /** `formatFileSize`: `0 B` for zero bytes. */
  function FormatFileSize(bytes: nat): (c: Cell)
    ensures bytes == 0 <==> c == Literal("0 B")
  {
    if bytes == 0 then Literal("0 B") else FileSize(bytes)
  }

  /** `calculateSavings`: `0%` when the original size is zero. */
  function CalculateSavings(original: nat, optimized: nat): (c: Cell)
    ensures original == 0 <==> c == Literal("0%")
  {
    if original == 0 then Literal("0%") else Savings(original, optimized)
  }

  /** The file-name cell: the last `/`-separated piece of the path, or the
      whole path when that piece is empty. */
  function FileNameCell(path: string): (name: string)
    ensures name == (if Text.AfterLast(path, '/') == "" then path else Text.AfterLast(path, '/'))
  {
    var last := PoppedPiece(path);
    if last == "" then path else last
  }

  /** `split('/').pop()`: the last piece of the split is the text after the
      last `/`. */
  function PoppedPiece(path: string): (last: string)
    ensures last == Text.AfterLast(path, '/')
  {
    var parts := Text.Split(path, '/');
    Text.SplitLastIsAfterLast(path, '/');
    parts[|parts| - 1]
  }

  /** The file name never holds a `/` unless the path ends with one, and it is
      always a suffix of the path. */
  lemma FileNameShape(path: string)
    ensures Text.EndsWith(path, FileNameCell(path))
    ensures (|path| == 0 || path[|path| - 1] != '/') ==> '/' !in FileNameCell(path)
  {
    assert Text.Suffix(path, |path|) == path;
  }

  const ErrorLimit := 50

  /** The error line under the status: absent when the error is missing or
      empty; otherwise its UTF-16 code units, cut to the first 50 units and
      followed by `...` when there are more than 50. The cut counts code
      units, so it can fall between the two halves of a surrogate pair. */
  function ErrorCell(error: Option<string>): (shown: Option<seq<Text.CodeUnit>>)
    ensures shown.None? <==> error.None? || error.value == ""
    ensures shown.Some? && |Text.Utf16(error.value)| <= ErrorLimit ==> shown.value == Text.Utf16(error.value)
    ensures shown.Some? && |Text.Utf16(error.value)| > ErrorLimit ==>
      && |shown.value| == ErrorLimit + 3
      && shown.value[..ErrorLimit] == Text.Utf16(error.value)[..ErrorLimit]
      && shown.value[ErrorLimit..] == Text.Utf16("...")
  {
    match error
    case None => None
    case Some(e) =>
      var units := Text.Utf16(e);
      if e == "" then None
      else if |units| > ErrorLimit then Some(units[..ErrorLimit] + Text.Utf16("..."))
      else Some(units)
  }

  /** For an error without characters beyond U+FFFF, the cut is the
      character-level one: the first 50 characters and `...`. */
  lemma ErrorCellBmp(e: string)
    requires e != [] && Text.AstralCount(e) == 0
    ensures |e| <= ErrorLimit ==> ErrorCell(Some(e)) == Some(Text.Utf16(e))
    ensures |e| > ErrorLimit ==> ErrorCell(Some(e)) == Some(Text.Utf16(e[..ErrorLimit] + "..."))
  {
    if |e| > ErrorLimit {
      var head := e[..ErrorLimit];
      HeadUnits(e, head);
      Text.Utf16Append(head, "...");
    }
  }

  lemma HeadUnits(e: string, head: string)
    requires Text.AstralCount(e) == 0 && |e| > ErrorLimit && head == e[..ErrorLimit]
    ensures Text.Utf16(e)[..ErrorLimit] == Text.Utf16(head)
  {
    var tail := e[ErrorLimit..];
    assert e == head + tail;
    Text.Utf16Append(head, tail);
  }

  /** One character below U+10000 followed by at least 25 beyond U+FFFF (say
      emoji): the 50th unit kept is the high half of a surrogate pair whose
      low half is cut off, so the cell holds a lone surrogate before `...`. */
  lemma {:induction false} ErrorCellSplitsPair(c: char, s: string)
    requires !Text.IsAstral(c) && |s| >= 25
    requires forall i :: 0 <= i < |s| ==> Text.IsAstral(s[i])
    ensures var shown := ErrorCell(Some([c] + s));
      && shown.Some? && |shown.value| == ErrorLimit + 3
      && 0xD800 <= shown.value[ErrorLimit - 1] < 0xDC00
      && shown.value[ErrorLimit] == '.' as int
  {
    Text.Utf16Append([c], s);
    Text.Utf16AstralAt(s, 24);
    assert Text.Utf16([c] + s)[ErrorLimit - 1] == Text.Utf16(s)[2 * 24];
  }

  /** One row of the table. The status is the translation key shown. */
  datatype Row = Row(
    time: string,
    name: string,
    original: Cell,
    optimized: Cell,
    ratio: Cell,
    status: string,
    error: Option<seq<Text.CodeUnit>>)

  /** The row for a record; the time cell is the record's timestamp, whose
      locale-dependent rendering is not modelled. */
  function RowOf(r: ProcessedFile): (row: Row)
    ensures !r.success ==> row.optimized == Dash && row.ratio == Dash && row.status == "logs.failed"
    ensures r.success ==>
      && row.optimized == FormatFileSize(r.optimizedSize)
      && row.ratio == CalculateSavings(r.originalSize, r.optimizedSize)
      && row.status == "logs.success"
    ensures row.original == FormatFileSize(r.originalSize)
    ensures row.name == FileNameCell(r.filePath) && row.error == ErrorCell(r.error)
  {
    Row(r.timestamp, FileNameCell(r.filePath), FormatFileSize(r.originalSize),
        if r.success then FormatFileSize(r.optimizedSize) else Dash,
        if r.success then CalculateSavings(r.originalSize, r.optimizedSize) else Dash,
        if r.success then "logs.success" else "logs.failed",
        ErrorCell(r.error))
  }

  /** A failed record that the optimizer stamped with the not-found message
      shows the message cut: it has 72 characters, so more than 50 units. */
  lemma NotFoundRowCut()
    ensures |Optimizer.NotFoundMessage| > ErrorLimit
    ensures ErrorCell(Some(Optimizer.NotFoundMessage))
      == Some(Text.Utf16(Optimizer.NotFoundMessage)[..ErrorLimit] + Text.Utf16("..."))
  {
    LongErrorCut(Optimizer.NotFoundMessage);
  }

  lemma LongErrorCut(e: string)
    requires |e| > ErrorLimit
    ensures ErrorCell(Some(e)) == Some(Text.Utf16(e)[..ErrorLimit] + Text.Utf16("..."))
  {
  }
}
