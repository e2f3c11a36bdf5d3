/**
 * The expense sheet as the bot keeps it: the header row, the expense rows
 * below it, the yearly table in columns F:G and the monthly table in I:J,
 * together with the operations that rewrite them.
 */
module Sync {
  import opened Wrappers
  import opened Text
  import opened Dates
  import opened Header
  import opened Sorting
  import opened Aggregate
  import opened Categories
  import opened AppendRange

  /**
   * What a table region holds after `written` is stored from its first data
   * row down: the written lines, then whatever older lines lie below them,
   * since nothing clears the region first.
   */
  function Overwrite(before: seq<Entry>, written: seq<Entry>): (after: seq<Entry>)
    ensures |after| == if |written| >= |before| then |written| else |before|
    ensures after[..|written|] == written
    ensures forall i :: |written| <= i < |after| ==> after[i] == before[i]
  {
    if |written| >= |before| then written else written + before[|written|..]
  }

  /** Storing the same table twice leaves the region as storing it once does. */
  lemma OverwriteIdempotent(before: seq<Entry>, written: seq<Entry>)
    ensures Overwrite(Overwrite(before, written), written) == Overwrite(before, written)
  {
  }

  /**
   * The row `addExpenseToSheet` appends. It is kept in the data whatever it
   * holds, but the scans count it only when its date is non-empty and its
   * amount is a number, and then under its date's year and month.
   */
  function ExpenseRow(date: string, category: string, amount: string, description: string): (row: Row)
    ensures Counted(row) <==> date != "" && ParseAmount(amount).Some?
    ensures Counted(row) ==> Bucket(Yearly, row) == Some((YearKey(date), ParseAmount(amount).value))
    ensures Counted(row) ==> forall year :: (Bucket(Monthly(year), row)
      == if YearKey(date) == year then Some((MonthLabel(date), ParseAmount(amount).value)) else None)
    ensures |row| == 4 && CategoryCell([row[1]]) == if category == "" then None else Some(category)
  {
    [date, category, amount, description]
  }

  /**
   * The date an expense is filed under: the one given, or, when none or an
   * empty one is given, today's date from the clock's year, 0-based month
   * and day of the month.
   */
  function ExpenseDate(given: Option<string>, year: nat, monthIndex: nat, day: nat): (date: string)
    requires monthIndex < 12 && 1 <= day <= 31
    ensures given.Some? && given.value != "" ==> date == given.value
    ensures given.None? || given.value == "" ==> date == DefaultDate(year, monthIndex, day)
  {
    if given.None? || given.value == "" then DefaultDate(year, monthIndex, day) else given.value
  }

  /**
   * An expense entered without a date, in a four-digit year, parses as
   * today's date and is filed under this year and this month.
   */
  lemma UndatedExpenseIsToday(given: Option<string>, year: nat, monthIndex: nat, day: nat)
    requires 1000 <= year <= 9999 && monthIndex < 12 && 1 <= day <= 31
    requires given.None? || given.value == ""
    ensures ParseDate(ExpenseDate(given, year, monthIndex, day)) == Some(Date(year, monthIndex + 1, day))
    ensures YearKey(ExpenseDate(given, year, monthIndex, day)) == Show(year)
    ensures MonthLabel(ExpenseDate(given, year, monthIndex, day)) == MonthNames[monthIndex]
  {
    DefaultDateParses(year, monthIndex, day);
  }

  /**
   * An undated expense with an amount adds that amount to this year's
   * yearly total and to this month's total in this year's monthly table.
   */
  lemma UndatedExpenseCounts(rows: seq<Row>, year: nat, monthIndex: nat, day: nat,
                             category: string, amount: nat, description: string)
    requires monthIndex < 12 && 1 <= day <= 31
    ensures var row := ExpenseRow(DefaultDate(year, monthIndex, day), category, Show(amount), description);
      && Total(Yearly, rows + [row], Show(year)) == Total(Yearly, rows, Show(year)) + amount as real
      && Total(Monthly(Show(year)), rows + [row], MonthNames[monthIndex])
         == Total(Monthly(Show(year)), rows, MonthNames[monthIndex]) + amount as real
  {
    var row := ExpenseRow(DefaultDate(year, monthIndex, day), category, Show(amount), description);
    assert Show(amount) + [] == Show(amount);
    ParseAmountShow(amount, []);
    assert DefaultDate(year, monthIndex, day) != "" by {
      assert |YearKey(DefaultDate(year, monthIndex, day))| > 0;
    }
    TotalSnoc(Yearly, rows, row, Show(year));
    TotalSnoc(Monthly(Show(year)), rows, row, MonthNames[monthIndex]);
  }

  /**
   * Appending a row and then reordering the rows changes each total by the
   * appended row's contribution and by nothing else.
   */
  lemma AppendThenSortTotals(scan: Scan, rows: seq<Row>, row: Row, sorted: seq<Row>, k: string)
    requires multiset(sorted) == multiset(rows + [row])
    ensures Total(scan, sorted, k) == Total(scan, rows, k) + Contribution(scan, row, k)
  {
    TotalPermutation(scan, rows + [row], sorted, k);
    TotalSnoc(scan, rows, row, k);
  }

  /** Rows sorted by date key are in chronological order wherever both dates parse. */
  lemma SortedIsChronological(rows: seq<Row>)
    requires SortedBy(rows, DateKey)
    ensures forall i, j :: 0 <= i < j < |rows| && DateKey(rows[i]) >= 0 && DateKey(rows[j]) >= 0 ==>
      NotAfter(ParseDate(rows[i][0]).value, ParseDate(rows[j][0]).value)
  {
    forall i, j | 0 <= i < j < |rows| && DateKey(rows[i]) >= 0 && DateKey(rows[j]) >= 0
      ensures NotAfter(ParseDate(rows[i][0]).value, ParseDate(rows[j][0]).value)
    {
      DateKeyChronological(rows[i], rows[j]);
    }
  }

  class Sheet {
    /** Row 1 as a read of A1:D1 returns it; None when the response carries no values. */
    var header: Option<seq<seq<string>>>
    /** The expense rows, row 2 downwards, columns A:D. */
    var data: seq<Row>
    /** The yearly table below its F1:G1 heading. */
    var yearly: seq<Entry>
    /** The monthly table below its I1:J1 heading. */
    var monthly: seq<Entry>
    /** The row spans un-bold requests have been issued for, oldest first. */
    var unbolded: seq<RowSpan>

    constructor (header: Option<seq<seq<string>>>, data: seq<Row>)
      ensures this.header == header && this.data == data
      ensures yearly == [] && monthly == [] && unbolded == []
    {
      this.header := header;
      this.data := data;
      yearly := [];
      monthly := [];
      unbolded := [];
    }

    /** `checkAndAddHeaders`: writes the canonical header when row 1 does not hold it. */
    method CheckAndAddHeaders() returns (wrote: bool)
      modifies this
      ensures wrote == NeedsHeaderWrite(old(header))
      ensures header == HeaderAfterCheck(old(header))
      ensures header.Some? && |header.value| > 0 && header.value[0] == Canonical
      ensures data == old(data) && yearly == old(yearly) && monthly == old(monthly)
      ensures unbolded == old(unbolded)
    {
      wrote := NeedsHeaderWrite(header);
      if wrote {
        header := Some([Canonical]);
      }
    }

    /** `sortExpensesByDate`: rewrites the expense rows in date order. */
    method SortExpensesByDate()
      modifies this
      ensures multiset(data) == multiset(old(data))
      ensures SortedBy(data, DateKey)
      ensures header == old(header) && yearly == old(yearly) && monthly == old(monthly)
      ensures unbolded == old(unbolded)
    {
      var rows := data;
      var a := new Row[|rows|](i requires 0 <= i < |rows| => rows[i]);
      assert a[..] == rows;
      SortByKey(a, DateKey);
      data := a[..];
    }

    /** `updateYearlyTotals`: stores one line per year, in year order, from F2 down. */
    method UpdateYearlyTotals() returns (table: seq<Entry>)
      modifies this
      ensures Tabulates(table, Yearly, data)
      ensures forall i, j :: 0 <= i < j < |table| ==> YearOrder(table[i].0) <= YearOrder(table[j].0)
      ensures yearly == Overwrite(old(yearly), table)
      ensures header == old(header) && data == old(data) && monthly == old(monthly)
      ensures unbolded == old(unbolded)
    {
      table := YearlyTotals(data);
      yearly := Overwrite(yearly, table);
    }

    /** `updateMonthlyTotals`: stores one line per month of the current year, January first, from I2 down. */
    method UpdateMonthlyTotals(currentYear: nat) returns (table: seq<Entry>)
      modifies this
      ensures Tabulates(table, Monthly(Show(currentYear)), data)
      ensures forall i, j :: 0 <= i < j < |table| ==> MonthOrder(table[i].0) <= MonthOrder(table[j].0)
      ensures monthly == Overwrite(old(monthly), table)
      ensures header == old(header) && data == old(data) && yearly == old(yearly)
      ensures unbolded == old(unbolded)
    {
      table := MonthlyTotals(data, currentYear);
      monthly := Overwrite(monthly, table);
    }

    /**
     * `addExpenseToSheet`. `reported` is the range the append reports, None
     * when the append fails. The row is appended and its category
     * registered; then the un-bold span is read from the range, and only
     * if that succeeds are the rows re-sorted and both tables rebuilt.
     */
    method AddExpense(registry: Registry, date: string, category: string, amount: string,
                      description: string, reported: Option<string>, currentYear: nat)
      returns (ok: bool)
      requires registry.Valid()
      modifies this, registry
      ensures registry.Valid()
      ensures ok <==> reported.Some? && UnboldSpan(reported.value).Some?
      ensures reported.None? ==> data == old(data) && registry.items == old(registry.items)
      ensures reported.Some? ==> registry.items == AddName(old(registry.items), category)
      ensures reported.Some? && !ok ==> data == old(data) + [ExpenseRow(date, category, amount, description)]
      ensures ok ==> multiset(data) == multiset(old(data) + [ExpenseRow(date, category, amount, description)])
      ensures ok ==> SortedBy(data, DateKey)
      ensures ok ==> unbolded == old(unbolded) + [UnboldSpan(reported.value).value]
      ensures !ok ==> unbolded == old(unbolded) && yearly == old(yearly) && monthly == old(monthly)
      ensures ok ==> forall k :: (Total(Yearly, data, k)
        == Total(Yearly, old(data), k) + Contribution(Yearly, ExpenseRow(date, category, amount, description), k))
      ensures ok ==> exists t :: (Tabulates(t, Yearly, data) && Ordered(t, Yearly)
        && yearly == Overwrite(old(yearly), t))
      ensures ok ==> exists t :: (Tabulates(t, Monthly(Show(currentYear)), data)
        && Ordered(t, Monthly(Show(currentYear))) && monthly == Overwrite(old(monthly), t))
      ensures header == old(header)
    {
      if reported.None? {
        return false;
      }
      var row := ExpenseRow(date, category, amount, description);
      data := data + [row];
      registry.Add(category);
      var span := UnboldSpan(reported.value);
      if span.None? {
        return false;
      }
      unbolded := unbolded + [span.value];
      SortExpensesByDate();
      var years := UpdateYearlyTotals();
      var months := UpdateMonthlyTotals(currentYear);
      assert Ordered(years, Yearly) && Ordered(months, Monthly(Show(currentYear)));
      forall k
        ensures Total(Yearly, data, k) == Total(Yearly, old(data), k) + Contribution(Yearly, row, k)
      {
        AppendThenSortTotals(Yearly, old(data), row, data, k);
      }
      ok := true;
    }
  }
}
