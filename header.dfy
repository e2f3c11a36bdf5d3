/** The header contract of the data table: row 1 is exactly Date, Category, Amount, Description. */
module Header {
  import opened Wrappers

  /** The header row, cells A1 to D1. */
  const Canonical: seq<string> := ["Date", "Category", "Amount", "Description"]

  /**
   * Whether row 1 must be rewritten, given the rows a read of A1:D1 returned
   * (None when the response carries no values at all). The row is rewritten
   * exactly when it is missing or differs from the canonical header.
   */
  function NeedsHeaderWrite(values: Option<seq<seq<string>>>): (write: bool)
    ensures write <==> !(values.Some? && |values.value| > 0 && values.value[0] == Canonical)
  {
    values.None? || |values.value| == 0 || |values.value[0]| != 4
    || values.value[0][0] != "Date" || values.value[0][1] != "Category"
    || values.value[0][2] != "Amount" || values.value[0][3] != "Description"
  }

  /** What a read of A1:D1 returns once the check has run: the canonical row if it wrote one. */
  function HeaderAfterCheck(values: Option<seq<seq<string>>>): (after: Option<seq<seq<string>>>)
    ensures !NeedsHeaderWrite(after)
    ensures !NeedsHeaderWrite(values) ==> after == values
  {
    if NeedsHeaderWrite(values) then Some([Canonical]) else values
  }

  /** Running the check a second time writes nothing and changes nothing. */
  lemma HeaderCheckIdempotent(values: Option<seq<seq<string>>>)
    ensures HeaderAfterCheck(HeaderAfterCheck(values)) == HeaderAfterCheck(values)
    ensures !NeedsHeaderWrite(HeaderAfterCheck(values))
  {
  }
}
