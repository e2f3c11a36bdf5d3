/**
 * The two aggregate tables: yearly totals (columns F-G) and, for the current
 * year only, monthly totals (columns I-J). Both are recomputed from a full
 * scan of the data rows: rows that are too short, have no date or have an
 * amount that does not parse are skipped, the amounts of the others are
 * summed per key, and the keys are sorted.
 */
module Aggregate {
  import opened Wrappers
  import opened Text
  import opened Dates
  import opened Sorting
  import opened Seqs

  /** A data row as read from A2:D: Date, Category, Amount, Description; trailing empty cells are absent. */
  type Row = seq<string>

  /** A line of an aggregate table: a year or month label and the total of its amounts. */
  type Entry = (string, real)

  /** Which aggregation a scan computes; the monthly one is for the given year's text. */
  datatype Scan = Yearly | Monthly(currentYear: string)

  /** A row either scan considers at all: three cells or more, a non-empty date and an amount `parseFloat` accepts. */
  predicate Counted(row: Row)
  {
    |row| >= 3 && row[0] != "" && ParseAmount(row[2]).Some?
  }

  /** The key and amount a row adds to the scan, or None if the scan skips it. */
  function Bucket(scan: Scan, row: Row): (b: Option<Entry>)
    ensures b.Some? <==> Counted(row) && (scan.Monthly? ==> YearKey(row[0]) == scan.currentYear)
    ensures b.Some? ==> b.value.1 == ParseAmount(row[2]).value
    ensures b.Some? && scan.Yearly? ==> b.value.0 == YearKey(row[0])
    ensures b.Some? && scan.Monthly? ==> b.value.0 == MonthLabel(row[0])
  {
    if !Counted(row) then None
    else
      match scan
      case Yearly => Some((YearKey(row[0]), ParseAmount(row[2]).value))
      case Monthly(year) =>
        if YearKey(row[0]) == year then Some((MonthLabel(row[0]), ParseAmount(row[2]).value)) else None
  }

  /** What a row adds to the total of key `k`. */
  function Contribution(scan: Scan, row: Row, k: string): real
  {
    var b := Bucket(scan, row);
    if b.Some? && b.value.0 == k then b.value.1 else 0.0
  }

  /** The total of key `k`: the sum of the amounts of the rows the scan files under `k`. */
  function Total(scan: Scan, rows: seq<Row>, k: string): real
  {
    if rows == [] then 0.0
    else Total(scan, rows[..|rows| - 1], k) + Contribution(scan, rows[|rows| - 1], k)
  }

  /** The keys some row is filed under. */
  function KeySet(scan: Scan, rows: seq<Row>): set<string>
  {
    set r | r in rows && Bucket(scan, r).Some? :: Bucket(scan, r).value.0
  }

  /** The keys one row is filed under: none or one. */
  function RowKeys(scan: Scan, row: Row): set<string>
  {
    var b := Bucket(scan, row);
    if b.Some? then {b.value.0} else {}
  }

  lemma KeySetSnoc(scan: Scan, rows: seq<Row>, row: Row)
    ensures KeySet(scan, rows + [row]) == KeySet(scan, rows) + RowKeys(scan, row)
  {
  }

  lemma TotalSnoc(scan: Scan, rows: seq<Row>, row: Row, k: string)
    ensures Total(scan, rows + [row], k) == Total(scan, rows, k) + Contribution(scan, row, k)
  {
    assert (rows + [row])[..|rows|] == rows;
  }

  /** The key the scan files `row` under, if any. */
  function Label(scan: Scan, row: Row): (l: Option<string>)
    ensures l.Some? <==> Bucket(scan, row).Some?
    ensures l.Some? ==> l.value == Bucket(scan, row).value.0
  {
    match Bucket(scan, row)
    case None => None
    case Some((k, _)) => Some(k)
  }

  /** The label of every row, in row order. */
  function RowLabels(scan: Scan, rows: seq<Row>): (ls: seq<Option<string>>)
    ensures |ls| == |rows| && forall r :: 0 <= r < |rows| ==> ls[r] == Label(scan, rows[r])
  {
    seq(|rows|, r requires 0 <= r < |rows| => Label(scan, rows[r]))
  }

  /**
   * The keys in the order a JavaScript Map first receives them: each label
   * in turn, unless an earlier one already brought it.
   */
  function FirstKeys<K(==)>(labels: seq<Option<K>>): seq<K>
  {
    if labels == [] then []
    else
      var keys := FirstKeys(labels[..|labels| - 1]);
      var l := labels[|labels| - 1];
      if l.Some? && l.value !in keys then keys + [l.value] else keys
  }

  /** A key is listed exactly when some label carries it. */
  lemma {:induction false} FirstKeysMember<K>(labels: seq<Option<K>>, k: K)
    ensures k in FirstKeys(labels) <==> Some(k) in labels
  {
    if labels != [] {
      var init := labels[..|labels| - 1];
      FirstKeysMember(init, k);
      assert labels == init + [labels[|labels| - 1]];
    }
  }

  /**
   * The listed keys are in first-seen order: wherever a later key occurs, an
   * earlier key has already occurred before it.
   */
  lemma {:induction false} FirstKeysOrder<K>(labels: seq<Option<K>>)
    ensures var keys := FirstKeys(labels);
      forall i, j, r :: 0 <= i < j < |keys| && 0 <= r < |labels| && labels[r] == Some(keys[j]) ==>
        Some(keys[i]) in labels[..r]
  {
    if labels != [] {
      var init := labels[..|labels| - 1];
      var before, keys := FirstKeys(init), FirstKeys(labels);
      FirstKeysOrder(init);
      forall i, j, r | 0 <= i < j < |keys| && 0 <= r < |labels| && labels[r] == Some(keys[j])
        ensures Some(keys[i]) in labels[..r]
      {
        assert i < |before| && keys[i] == before[i];
        assert keys[i] in before;
        FirstKeysMember(init, keys[i]);
        if r < |init| {
          assert init[r] == Some(keys[j]);
          FirstKeysMember(init, keys[j]);
          assert keys[j] in before;
          assert j < |before|;
          assert keys[j] == before[j];
          assert init[..r] == labels[..r];
        } else {
          assert labels[..r] == init;
          assert Some(keys[i]) in init;
        }
      }
    }
  }

  /** Scanning one more row extends the first-seen keys by its label at most. */
  lemma RowLabelsSnoc(scan: Scan, init: seq<Row>, row: Row)
    ensures var keys := FirstKeys(RowLabels(scan, init)); var l := Label(scan, row);
      FirstKeys(RowLabels(scan, init + [row])) == if l.Some? && l.value !in keys then keys + [l.value] else keys
  {
    assert RowLabels(scan, init + [row])[..|init|] == RowLabels(scan, init);
  }

  /** The position an entry's key sorts at: the year as a number, or the calendar month. */
  function EntryOrder(scan: Scan, e: Entry): (n: int)
    ensures n >= -1
    ensures scan.Monthly? ==> n < 12
  {
    match scan
    case Yearly => YearOrder(e.0)
    case Monthly(_) => MonthOrder(e.0)
  }

  /**
   * `a[0] - b[0]` on year keys compares them as numbers. A key of digits
   * (the empty key reads as 0) sorts by its value; a key that is not a number
   * makes the comparison `NaN`, whose placement JavaScript leaves to the
   * engine: here such keys sort first.
   */
  function YearOrder(key: string): (n: int)
    ensures n >= -1
    ensures AllDigits(key) ==> n == DigitsValue(key)
    ensures !AllDigits(key) ==> n == -1
  {
    if AllDigits(key) then DigitsValue(key) else -1
  }

  /**
   * `table` has exactly one line per key the scan files some row under, and
   * each line carries that key's total.
   */
  ghost predicate Tabulates(table: seq<Entry>, scan: Scan, rows: seq<Row>)
  {
    && (forall i, j :: 0 <= i < j < |table| ==> table[i].0 != table[j].0)
    && (forall i :: 0 <= i < |table| ==> table[i].0 in KeySet(scan, rows) && table[i].1 == Total(scan, rows, table[i].0))
    && (forall k :: k in KeySet(scan, rows) ==> exists i :: 0 <= i < |table| && table[i].0 == k)
  }

  /** `table` is in the scan's order: ascending years, or January to December. */
  ghost predicate Ordered(table: seq<Entry>, scan: Scan)
  {
    forall i, j :: 0 <= i < j < |table| ==> EntryOrder(scan, table[i]) <= EntryOrder(scan, table[j])
  }

  /** A key no row is filed under has a total of zero. */
  lemma {:induction false} TotalOutsideKeySet(scan: Scan, rows: seq<Row>, k: string)
    requires k !in KeySet(scan, rows)
    ensures Total(scan, rows, k) == 0.0
  {
    if rows != [] {
      var init, last := rows[..|rows| - 1], rows[|rows| - 1];
      assert rows == init + [last];
      KeySetSnoc(scan, init, last);
      TotalOutsideKeySet(scan, init, k);
    }
  }

  /**
   * The scan loop: walks the rows once, adding each counted amount to its
   * key's running total, and keeps the keys in the order they first appear
   * (the insertion order of a JavaScript Map).
   */
  method GroupSum(scan: Scan, rows: seq<Row>) returns (keys: seq<string>, totals: map<string, real>)
    ensures keys == FirstKeys(RowLabels(scan, rows))
    ensures Distinct(keys)
    ensures totals.Keys == KeySet(scan, rows)
    ensures forall k :: k in keys <==> k in totals
    ensures forall k :: k in totals ==> totals[k] == Total(scan, rows, k)
  {
    keys, totals := [], map[];
    var i := 0;
    while i < |rows|
      invariant 0 <= i <= |rows|
      invariant Scanned(scan, rows[..i], keys, totals)
      invariant Distinct(keys) && forall k :: k in keys <==> k in totals
    {
      var row := rows[i];
      assert rows[..i + 1] == rows[..i] + [row];
      var keys', totals' := Accumulate(scan, row, keys, totals);
      ScanStep(scan, rows[..i], row, keys, totals, keys', totals');
      keys, totals := keys', totals';
      i := i + 1;
    }
    assert rows[..i] == rows;
  }

  /** What the scan loop holds after the rows `rows`: the Map's keys in order, and each key's running total. */
  ghost predicate Scanned(scan: Scan, rows: seq<Row>, keys: seq<string>, totals: map<string, real>)
  {
    && keys == FirstKeys(RowLabels(scan, rows))
    && totals.Keys == KeySet(scan, rows)
    && forall k :: k in totals ==> totals[k] == Total(scan, rows, k)
  }

  /** Accumulating one more row keeps the scan loop's invariant for the longer prefix. */
  lemma ScanStep(scan: Scan, init: seq<Row>, row: Row, keys: seq<string>, totals: map<string, real>,
                 keys': seq<string>, totals': map<string, real>)
    requires Scanned(scan, init, keys, totals)
    requires keys' == if Label(scan, row).Some? && Label(scan, row).value !in keys
      then keys + [Label(scan, row).value] else keys
    requires totals'.Keys == totals.Keys + RowKeys(scan, row)
    requires forall k :: k in totals' ==> totals'[k] == (if k in totals then totals[k] else 0.0) + Contribution(scan, row, k)
    ensures Scanned(scan, init + [row], keys', totals')
  {
    RowLabelsSnoc(scan, init, row);
    KeySetSnoc(scan, init, row);
    forall k | k in totals'
      ensures totals'[k] == Total(scan, init + [row], k)
    {
      TotalSnoc(scan, init, row, k);
      if k !in totals {
        TotalOutsideKeySet(scan, init, k);
      }
    }
  }

  /** One step of the scan loop: `totals.set(key, (totals.get(key) || 0) + amount)` for a counted row. */
  method Accumulate(scan: Scan, row: Row, keys: seq<string>, totals: map<string, real>)
    returns (keys': seq<string>, totals': map<string, real>)
    requires Distinct(keys) && forall k :: k in keys <==> k in totals
    ensures Distinct(keys') && forall k :: k in keys' <==> k in totals'
    ensures keys' == if Label(scan, row).Some? && Label(scan, row).value !in keys
      then keys + [Label(scan, row).value] else keys
    ensures totals'.Keys == totals.Keys + RowKeys(scan, row)
    ensures forall k :: k in totals' ==> totals'[k] == (if k in totals then totals[k] else 0.0) + Contribution(scan, row, k)
  {
    keys', totals' := keys, totals;
    var b := Bucket(scan, row);
    if b.Some? {
      var (k, amount) := b.value;
      if k in totals {
        totals' := totals[k := totals[k] + amount];
      } else {
        keys' := keys + [k];
        totals' := totals[k := amount];
      }
    }
  }

  /**
   * One aggregate table: the scan, then the Map's entries sorted by the
   * scan's order (index.js:103-105 and 179-185).
   */
  method Tabulate(scan: Scan, rows: seq<Row>) returns (table: seq<Entry>)
    ensures Tabulates(table, scan, rows)
    ensures Ordered(table, scan)
  {
    var keys, totals := GroupSum(scan, rows);
    var entries := Entries(keys, totals);
    EntriesTabulate(scan, rows, keys, totals);
    var a := new Entry[|entries|](i requires 0 <= i < |entries| => entries[i]);
    assert a[..] == entries;
    SortByKey(a, e => EntryOrder(scan, e));
    table := a[..];
    TabulatesPermutation(entries, table, scan, rows);
  }

  /** The Map's entries, in its key order. */
  function Entries(keys: seq<string>, totals: map<string, real>): (entries: seq<Entry>)
    requires forall k :: k in keys ==> k in totals
    ensures |entries| == |keys| && forall i :: 0 <= i < |keys| ==> entries[i] == (keys[i], totals[keys[i]])
  {
    seq(|keys|, i requires 0 <= i < |keys| => (keys[i], totals[keys[i]]))
  }

  /** The entries of the scan loop's map form a table of the rows. */
  lemma EntriesTabulate(scan: Scan, rows: seq<Row>, keys: seq<string>, totals: map<string, real>)
    requires Distinct(keys)
    requires totals.Keys == KeySet(scan, rows)
    requires forall k :: k in keys <==> k in totals
    requires forall k :: k in totals ==> totals[k] == Total(scan, rows, k)
    ensures Tabulates(Entries(keys, totals), scan, rows)
  {
    var entries := Entries(keys, totals);
    forall k | k in KeySet(scan, rows)
      ensures exists i :: 0 <= i < |entries| && entries[i].0 == k
    {
      var i :| 0 <= i < |keys| && keys[i] == k;
      assert entries[i].0 == k;
    }
  }

  /** Yearly totals (`updateYearlyTotals`): one line per year key, years ascending. */
  method YearlyTotals(rows: seq<Row>) returns (table: seq<Entry>)
    ensures Tabulates(table, Yearly, rows)
    ensures forall i, j :: 0 <= i < j < |table| ==> YearOrder(table[i].0) <= YearOrder(table[j].0)
  {
    table := Tabulate(Yearly, rows);
  }

  /**
   * Monthly totals of the current year (`updateMonthlyTotals`): one line per
   * month name, in calendar order, counting only rows of `currentYear`.
   */
  method MonthlyTotals(rows: seq<Row>, currentYear: nat) returns (table: seq<Entry>)
    ensures Tabulates(table, Monthly(Show(currentYear)), rows)
    ensures forall i, j :: 0 <= i < j < |table| ==> MonthOrder(table[i].0) <= MonthOrder(table[j].0)
  {
    table := Tabulate(Monthly(Show(currentYear)), rows);
  }

  lemma {:induction false} TotalAppend(scan: Scan, a: seq<Row>, b: seq<Row>, k: string)
    ensures Total(scan, a + b, k) == Total(scan, a, k) + Total(scan, b, k)
  {
    if b != [] {
      var b0, last := b[..|b| - 1], b[|b| - 1];
      assert b == b0 + [last];
      assert a + b == (a + b0) + [last];
      TotalSnoc(scan, a + b0, last, k);
      TotalSnoc(scan, b0, last, k);
      TotalAppend(scan, a, b0, k);
    } else {
      assert a + b == a;
    }
  }

  /** Reordering the rows (as the date sort does) leaves every total unchanged. */
  lemma {:induction false} TotalPermutation(scan: Scan, a: seq<Row>, b: seq<Row>, k: string)
    requires multiset(a) == multiset(b)
    ensures Total(scan, a, k) == Total(scan, b, k)
  {
    if a == [] {
      assert |b| == |multiset(b)| == 0;
    } else {
      var a0, x := a[..|a| - 1], a[|a| - 1];
      assert a == a0 + [x];
      assert x in multiset(b);
      var j :| 0 <= j < |b| && b[j] == x;
      var front, back := b[..j], b[j + 1..];
      assert b == front + [x] + back;
      MultisetRemove(a0, x, front, back);
      TotalPermutation(scan, a0, front + back, k);
      TotalRemoveAt(scan, front, x, back, k);
      TotalSnoc(scan, a0, x, k);
    }
  }

  lemma TotalRemoveAt(scan: Scan, front: seq<Row>, x: Row, back: seq<Row>, k: string)
    ensures Total(scan, front + [x] + back, k) == Total(scan, front + back, k) + Contribution(scan, x, k)
  {
    TotalAppend(scan, front, back, k);
    TotalAppend(scan, front + [x], back, k);
    TotalSnoc(scan, front, x, k);
  }

  /** Reordering the rows leaves the set of keys unchanged. */
  lemma KeySetPermutation(scan: Scan, a: seq<Row>, b: seq<Row>)
    requires multiset(a) == multiset(b)
    ensures KeySet(scan, a) == KeySet(scan, b)
  {
    forall r ensures r in a <==> r in b {
      assert r in a <==> r in multiset(a);
      assert r in b <==> r in multiset(b);
    }
  }

  /** A reordering of a table of the rows is still a table of the rows. */
  lemma TabulatesPermutation(t: seq<Entry>, u: seq<Entry>, scan: Scan, rows: seq<Row>)
    requires multiset(t) == multiset(u) && Tabulates(t, scan, rows)
    ensures Tabulates(u, scan, rows)
  {
    assert Distinct(t);
    DistinctPermutation(t, u);
    forall i | 0 <= i < |u|
      ensures u[i].0 in KeySet(scan, rows) && u[i].1 == Total(scan, rows, u[i].0)
    {
      assert u[i] in multiset(t);
    }
    forall k | k in KeySet(scan, rows)
      ensures exists i :: 0 <= i < |u| && u[i].0 == k
    {
      var i :| 0 <= i < |t| && t[i].0 == k;
      assert t[i] in multiset(u);
      var j :| 0 <= j < |u| && u[j] == t[i];
    }
  }

  /** The sum of every amount the scan counts, whatever its key. */
  function ScanSum(scan: Scan, rows: seq<Row>): real
  {
    if rows == [] then 0.0
    else
      var b := Bucket(scan, rows[|rows| - 1]);
      ScanSum(scan, rows[..|rows| - 1]) + (if b.Some? then b.value.1 else 0.0)
  }

  /**
   * The monthly scan of a year counts exactly the rows the yearly scan files
   * under that year: the monthly totals add up to that year's yearly total.
   */
  lemma {:induction false} MonthlyCoversYear(rows: seq<Row>, year: string)
    ensures Total(Yearly, rows, year) == ScanSum(Monthly(year), rows)
  {
    if rows != [] {
      MonthlyCoversYear(rows[..|rows| - 1], year);
    }
  }

  /** The sum of the totals column of a table. */
  function ColumnSum(table: seq<Entry>): real
  {
    if table == [] then 0.0 else ColumnSum(table[..|table| - 1]) + table[|table| - 1].1
  }

  /** The labels column of a table. */
  function Labels(table: seq<Entry>): (keys: seq<string>)
    ensures |keys| == |table| && forall i :: 0 <= i < |table| ==> keys[i] == table[i].0
  {
    seq(|table|, i requires 0 <= i < |table| => table[i].0)
  }

  /** The sum of the totals of the given keys. */
  function KeyedSum(scan: Scan, keys: seq<string>, rows: seq<Row>): real
  {
    if keys == [] then 0.0 else KeyedSum(scan, keys[..|keys| - 1], rows) + Total(scan, rows, keys[|keys| - 1])
  }

  /** What one row adds to the totals of the given keys together. */
  function RowShare(scan: Scan, keys: seq<string>, row: Row): real
  {
    if keys == [] then 0.0 else RowShare(scan, keys[..|keys| - 1], row) + Contribution(scan, row, keys[|keys| - 1])
  }

  /** A table's totals column adds up to the sum of every amount the scan counts. */
  lemma TableSumsAllAmounts(table: seq<Entry>, scan: Scan, rows: seq<Row>)
    requires Tabulates(table, scan, rows)
    ensures ColumnSum(table) == ScanSum(scan, rows)
  {
    var keys := Labels(table);
    ColumnSumIsKeyedSum(table, scan, rows);
    assert Distinct(keys);
    forall k | k in KeySet(scan, rows) ensures k in keys {
      var i :| 0 <= i < |table| && table[i].0 == k;
      assert keys[i] == k;
    }
    KeyedSumCovers(scan, keys, rows);
  }

  lemma {:induction false} ColumnSumIsKeyedSum(table: seq<Entry>, scan: Scan, rows: seq<Row>)
    requires forall i :: 0 <= i < |table| ==> table[i].1 == Total(scan, rows, table[i].0)
    ensures ColumnSum(table) == KeyedSum(scan, Labels(table), rows)
  {
    if table != [] {
      var t0 := table[..|table| - 1];
      assert Labels(table)[..|table| - 1] == Labels(t0);
      ColumnSumIsKeyedSum(t0, scan, rows);
    }
  }

  lemma {:induction false} KeyedSumCovers(scan: Scan, keys: seq<string>, rows: seq<Row>)
    requires Distinct(keys)
    requires forall k :: k in KeySet(scan, rows) ==> k in keys
    ensures KeyedSum(scan, keys, rows) == ScanSum(scan, rows)
  {
    if rows == [] {
      KeyedSumOfNoRows(scan, keys);
    } else {
      var r0, last := rows[..|rows| - 1], rows[|rows| - 1];
      assert rows == r0 + [last];
      KeySetSnoc(scan, r0, last);
      KeyedSumCovers(scan, keys, r0);
      KeyedSumSnoc(scan, keys, r0, last);
      RowShareDistinct(scan, keys, last);
    }
  }

  lemma {:induction false} KeyedSumOfNoRows(scan: Scan, keys: seq<string>)
    ensures KeyedSum(scan, keys, []) == 0.0
  {
    if keys != [] {
      KeyedSumOfNoRows(scan, keys[..|keys| - 1]);
    }
  }

  lemma {:induction false} KeyedSumSnoc(scan: Scan, keys: seq<string>, rows: seq<Row>, row: Row)
    ensures KeyedSum(scan, keys, rows + [row]) == KeyedSum(scan, keys, rows) + RowShare(scan, keys, row)
  {
    if keys != [] {
      KeyedSumSnoc(scan, keys[..|keys| - 1], rows, row);
      TotalSnoc(scan, rows, row, keys[|keys| - 1]);
    }
  }

  lemma {:induction false} RowShareDistinct(scan: Scan, keys: seq<string>, row: Row)
    requires Distinct(keys)
    ensures var b := Bucket(scan, row);
      RowShare(scan, keys, row) == if b.Some? && b.value.0 in keys then b.value.1 else 0.0
  {
    if keys != [] {
      var k0, last := keys[..|keys| - 1], keys[|keys| - 1];
      assert keys == k0 + [last];
      RowShareDistinct(scan, k0, row);
    }
  }
}
