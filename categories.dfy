/**
 * The category registry: the set of known category names, seeded with the
 * predefined list, grown from the sheet's Category column at start-up and by
 * every recorded expense, and searched by the autocomplete of the command's
 * category option.
 */
module Categories {
  import opened Wrappers
  import opened Text
  import opened Seqs

  const Predefined: seq<string> :=
    ["Food & Dining", "Transportation", "Shopping", "Health", "Entertainment",
     "Bills & Utilities", "Travel", "Education", "Personal Care", "Gifts & Donations"]

  /** The most choices an autocomplete answer carries. */
  const MaxChoices: nat := 25

  /**
   * `Set.prototype.add` on the set's iteration order: a new name goes to the
   * end, a known one changes nothing.
   */
  function AddName(items: seq<string>, name: string): (r: seq<string>)
    ensures name in r && forall x :: x in items ==> x in r
    ensures forall x :: x in r ==> x in items || x == name
    ensures |r| == if name in items then |items| else |items| + 1
    ensures r[..|items|] == items
  {
    if name in items then items else items + [name]
  }

  /** The category a row of B2:B holds: its first cell, if there is one and it is not empty. */
  function CategoryCell(row: seq<string>): Option<string>
  {
    if |row| > 0 && row[0] != "" then Some(row[0]) else None
  }

  /** The names after admitting, in order, the category of every row of the column. */
  function AdmitColumn(items: seq<string>, rows: seq<seq<string>>): seq<string>
  {
    if rows == [] then items
    else
      var before := AdmitColumn(items, rows[..|rows| - 1]);
      match CategoryCell(rows[|rows| - 1])
      case None => before
      case Some(name) => AddName(before, name)
  }

  /**
   * Loading only adds: the old names stay first, and a name is known
   * afterwards exactly when it was known before or is the non-empty
   * category of some row. No name is ever repeated.
   */
  lemma {:induction false} AdmitColumnAdmits(items: seq<string>, rows: seq<seq<string>>)
    requires Distinct(items)
    ensures var r := AdmitColumn(items, rows);
      && Distinct(r)
      && |items| <= |r| && r[..|items|] == items
      && forall x :: x in r <==> x in items || exists i :: 0 <= i < |rows| && CategoryCell(rows[i]) == Some(x)
  {
    if rows != [] {
      var init, last := rows[..|rows| - 1], rows[|rows| - 1];
      AdmitColumnAdmits(items, init);
      var before := AdmitColumn(items, init);
      forall x | x in items || exists i :: 0 <= i < |rows| && CategoryCell(rows[i]) == Some(x)
        ensures x in AdmitColumn(items, rows)
      {
        if x !in items {
          var i :| 0 <= i < |rows| && CategoryCell(rows[i]) == Some(x);
          if i < |init| {
            assert CategoryCell(init[i]) == Some(x);
          }
        }
      }
      forall x | x in AdmitColumn(items, rows) && x !in items
        ensures exists i :: 0 <= i < |rows| && CategoryCell(rows[i]) == Some(x)
      {
        if x in before {
          var i :| 0 <= i < |init| && CategoryCell(init[i]) == Some(x);
          assert CategoryCell(rows[i]) == Some(x);
        } else {
          assert CategoryCell(rows[|rows| - 1]) == Some(x);
        }
      }
      assert before[..|items|] == items;
    }
  }

  /** The registry of category names, in the order a JavaScript Set iterates them. */
  class Registry {
    var items: seq<string>

    ghost predicate Valid()
      reads this
    {
      Distinct(items)
    }

    /** `new Set(predefinedCategories)`. */
    constructor ()
      ensures Valid() && items == Predefined
    {
      items := Predefined;
    }

    /** `categories.add(name)`. */
    method Add(name: string)
      requires Valid()
      modifies this
      ensures Valid() && items == AddName(old(items), name)
    {
      if name !in items {
        items := items + [name];
      }
    }

    /**
     * `loadExistingCategories`, given the rows a read of B2:B returned (None
     * when the response carries no values): admits every non-empty category.
     */
    method Load(values: Option<seq<seq<string>>>)
      requires Valid()
      modifies this
      ensures Valid()
      ensures items == if values.None? then old(items) else AdmitColumn(old(items), values.value)
    {
      if values.Some? {
        var rows := values.value;
        var i := 0;
        while i < |rows|
          invariant 0 <= i <= |rows|
          invariant Valid()
          invariant items == AdmitColumn(old(items), rows[..i])
        {
          assert rows[..i + 1][..i] == rows[..i];
          var category := CategoryCell(rows[i]);
          if category.Some? {
            Add(category.value);
          }
          i := i + 1;
        }
        assert rows[..i] == rows;
      }
    }
  }

  /** `choice.toLowerCase().includes(input.toLowerCase())`. */
  predicate Matches(choice: string, input: string)
  {
    Contains(ToLower(choice), ToLower(input))
  }

  /** The case of the input does not matter: it is lower-cased before the search. */
  lemma MatchesIgnoresInputCase(choice: string, input: string)
    ensures Matches(choice, input) <==> Matches(choice, ToLower(input))
  {
    ToLowerIdempotent(input);
  }

  /** The categories that match the input, in their original order. */
  function Filter(names: seq<string>, input: string): seq<string>
  {
    if names == [] then []
    else (if Matches(names[0], input) then [names[0]] else []) + Filter(names[1..], input)
  }

  /**
   * The autocomplete answer: the first 25 categories, in registry order,
   * whose lower-case form contains the lower-case input.
   */
  function Autocomplete(names: seq<string>, input: string): (r: seq<string>)
    ensures |r| <= MaxChoices
    ensures forall x :: x in r ==> x in names && Matches(x, input)
    ensures |r| < MaxChoices ==> forall x :: x in names && Matches(x, input) ==> x in r
  {
    FilterMembers(names, input);
    var matches := Filter(names, input);
    if |matches| <= MaxChoices then matches else matches[..MaxChoices]
  }

  /** A name passes the filter exactly when it is a category that matches. */
  lemma {:induction false} FilterMembers(names: seq<string>, input: string)
    ensures forall x :: x in Filter(names, input) <==> x in names && Matches(x, input)
  {
    if names != [] {
      FilterMembers(names[1..], input);
      assert forall x :: x in names <==> x == names[0] || x in names[1..];
    }
  }

  /** Filtering keeps order: the matches of two runs of names are the matches of each, in turn. */
  lemma {:induction false} FilterConcat(a: seq<string>, b: seq<string>, input: string)
    ensures Filter(a + b, input) == Filter(a, input) + Filter(b, input)
  {
    if a != [] {
      assert (a + b)[1..] == a[1..] + b;
      FilterConcat(a[1..], b, input);
    } else {
      assert a + b == b;
    }
  }

  /** The answer is the leading part of the ordered list of matches. */
  lemma AutocompleteIsLeadingMatches(names: seq<string>, input: string)
    ensures var r := Autocomplete(names, input);
      r == Filter(names, input)[..|r|]
  {
  }

  /** An empty input matches every category, so the first 25 categories are offered. */
  lemma {:induction false} AutocompleteEmptyInput(names: seq<string>)
    ensures Filter(names, "") == names
    ensures Autocomplete(names, "") == if |names| <= MaxChoices then names else names[..MaxChoices]
  {
    if names != [] {
      assert StartsWith(ToLower(names[0]), ToLower(""));
      AutocompleteEmptyInput(names[1..]);
    }
  }
}
