/**
 * The row number of a freshly appended expense, read back from the A1-style
 * range the store reports (`"Sheet1!A5:D5"`), and the zero-based half-open
 * row span the un-bold request is given for it.
 */
module AppendRange {
  import opened Wrappers
  import opened Text

  /** The start cell of an A1 range: the text after the first `!`, up to `:`. */
  function StartCell(updatedRange: string): (cell: Option<string>)
    ensures cell.Some? <==> '!' in updatedRange
    ensures cell.Some? ==> ':' !in cell.value && '!' !in cell.value
  {
    match Field(updatedRange, '!', 1)
    case None => None
    case Some(cells) => Some(BeforeFirst(cells, ':'))
  }

  /**
   * The digits of the start cell, read as a number. None stands for the
   * TypeError the chain throws when there is no `!` or no digit.
   */
  function AppendedRow(updatedRange: string): (row: Option<nat>)
    ensures row.None? <==> StartCell(updatedRange).None? || AllNonDigits(StartCell(updatedRange).value)
  {
    match StartCell(updatedRange)
    case None => None
    case Some(cell) =>
      match FirstDigitRun(cell)
      case None => None
      case Some(d) => Some(DigitsValue(d))
  }

  datatype RowSpan = RowSpan(startRowIndex: int, endRowIndex: int)

  /** The span handed to the un-bold request: `[row - 1, row)`. */
  function UnboldSpan(updatedRange: string): (span: Option<RowSpan>)
    ensures span.Some? <==> AppendedRow(updatedRange).Some?
    ensures span.Some? ==> span.value.endRowIndex - span.value.startRowIndex == 1
    ensures span.Some? ==> span.value.startRowIndex + 1 == AppendedRow(updatedRange).value
  {
    match AppendedRow(updatedRange)
    case None => None
    case Some(row) => Some(RowSpan(row - 1, row))
  }

  /** The column part of a cell reference: letters, no digits, no separators. */
  predicate ColumnName(col: string)
  {
    AllNonDigits(col) && ':' !in col && '!' !in col
  }

  /** The A1 range `sheet!<col1><row1>:<col2><row2>`. */
  function A1Range(sheet: string, col1: string, row1: nat, col2: string, row2: nat): string
  {
    sheet + "!" + col1 + Show(row1) + ":" + col2 + Show(row2)
  }

  /** The row number read back from an A1 range is the row of its start cell. */
  lemma AppendedRowOfRange(sheet: string, col1: string, row1: nat, col2: string, row2: nat)
    requires '!' !in sheet && ColumnName(col1) && ColumnName(col2)
    ensures AppendedRow(A1Range(sheet, col1, row1, col2, row2)) == Some(row1)
  {
    var cell := col1 + Show(row1);
    var tail := col2 + Show(row2);
    NoSeparator(Show(row1), ':');
    NoSeparator(Show(row1), '!');
    NoSeparator(Show(row2), '!');
    assert A1Range(sheet, col1, row1, col2, row2) == sheet + ['!'] + cell + [':'] + tail;
    StartCellOfJoin(sheet, cell, tail);
    FirstDigitRunAfter(col1, Show(row1));
    DigitsValueShow(row1);
  }

  lemma StartCellOfJoin(sheet: string, cell: string, tail: string)
    requires '!' !in sheet && '!' !in cell && ':' !in cell && '!' !in tail
    ensures StartCell(sheet + ['!'] + cell + [':'] + tail) == Some(cell)
  {
    var rest := cell + [':'] + tail;
    assert sheet + ['!'] + cell + [':'] + tail == sheet + ['!'] + rest;
    FieldsOfJoin(sheet, '!', rest);
    BeforeFirstAbsent(rest, '!');
    BeforeFirstOfJoin(cell, ':', tail);
  }

  lemma NoSeparator(d: string, c: char)
    requires AllDigits(d) && !IsDigit(c)
    ensures c !in d
  {
  }

  /** For the reported range of a one-row append, the span is exactly that row. */
  lemma UnboldSpanOfRange(sheet: string, col1: string, col2: string, row: nat)
    requires '!' !in sheet && ColumnName(col1) && ColumnName(col2)
    ensures UnboldSpan(A1Range(sheet, col1, row, col2, row)) == Some(RowSpan(row - 1, row))
  {
    AppendedRowOfRange(sheet, col1, row, col2, row);
  }

  lemma {:induction false} BeforeFirstAbsent(s: string, sep: char)
    requires sep !in s
    ensures BeforeFirst(s, sep) == s
  {
    if s != [] {
      assert sep !in s[1..] by {
        assert forall i :: 0 <= i < |s[1..]| ==> s[1..][i] == s[i + 1];
      }
      BeforeFirstAbsent(s[1..], sep);
    }
  }

  /** The first digit run skips any text without digits before it. */
  lemma {:induction false} FirstDigitRunAfter(p: string, d: string)
    requires AllNonDigits(p) && |d| > 0 && AllDigits(d)
    ensures FirstDigitRun(p + d) == Some(d)
  {
    if p == [] {
      assert p + d == d;
      LeadingDigitsOfDigits(d, []);
      assert d + [] == d;
    } else {
      assert (p + d)[1..] == p[1..] + d;
      assert AllNonDigits(p[1..]) by {
        assert forall i :: 0 <= i < |p[1..]| ==> p[1..][i] == p[i + 1];
      }
      FirstDigitRunAfter(p[1..], d);
    }
  }
}
