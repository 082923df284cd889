/**
 * Concrete examples of the ledger store: the listing order on entries that share
 * a date, and the totals after an income and an expense are added.
 */
module LedgerExamples {
  import opened LedgerTypes
  import opened LedgerQuery
  import opened LedgerStore

  /** `fetch()` with every argument left out. */
  const NoFilter: Filter := Filter(None, None, None)

  /**
   * Rows dated 2024-01-01 08:00 (id 1), 2024-01-01 without a time (id 2) and
   * 2024-01-02 12:00 (id 3) are listed newest date first, and within
   * 2024-01-01 the timed row before the untimed one.
   */
  lemma MostRecentFirst()
    ensures Fetch(map[1 := Entry(Date(2024, 1, 1), Some("08:00"), "Food", Some(""), -5.0),
                      2 := Entry(Date(2024, 1, 1), None, "Food", Some(""), -7.0),
                      3 := Entry(Date(2024, 1, 2), Some("12:00"), "Food", Some(""), -9.0)], NoFilter)
            == [Row(3, Entry(Date(2024, 1, 2), Some("12:00"), "Food", Some(""), -9.0)),
                Row(1, Entry(Date(2024, 1, 1), Some("08:00"), "Food", Some(""), -5.0)),
                Row(2, Entry(Date(2024, 1, 1), None, "Food", Some(""), -7.0))]
  {
    var e1 := Entry(Date(2024, 1, 1), Some("08:00"), "Food", Some(""), -5.0);
    var e2 := Entry(Date(2024, 1, 1), None, "Food", Some(""), -7.0);
    var e3 := Entry(Date(2024, 1, 2), Some("12:00"), "Food", Some(""), -9.0);
    var m := map[1 := e1, 2 := e2, 3 := e3];
    var expected := [Row(3, e3), Row(1, e1), Row(2, e2)];
    assert LexLess("00:00", "08:00") by {
      assert "00:00"[1..] == "0:00" && "08:00"[1..] == "8:00";
    }
    assert StrictlyListed(expected);
    assert forall r :: r in Fetch(m, NoFilter) <==> r in expected;
    ListedUnique(Fetch(m, NoFilter), expected);
  }

  /**
   * A row without a time sorts as if stamped 00:00, so against a row of the
   * same date stamped 00:00 the larger id comes first: the untimed row 2 is
   * listed before the midnight row 1.
   */
  lemma UntimedSortsAsMidnight()
    ensures Fetch(map[1 := Entry(Date(2024, 1, 1), Some("00:00"), "Food", Some(""), -5.0),
                      2 := Entry(Date(2024, 1, 1), None, "Food", Some(""), -7.0)], NoFilter)
            == [Row(2, Entry(Date(2024, 1, 1), None, "Food", Some(""), -7.0)),
                Row(1, Entry(Date(2024, 1, 1), Some("00:00"), "Food", Some(""), -5.0))]
  {
    var e1 := Entry(Date(2024, 1, 1), Some("00:00"), "Food", Some(""), -5.0);
    var e2 := Entry(Date(2024, 1, 1), None, "Food", Some(""), -7.0);
    var m := map[1 := e1, 2 := e2];
    var expected := [Row(2, e2), Row(1, e1)];
    assert StrictlyListed(expected);
    assert forall r :: r in Fetch(m, NoFilter) <==> r in expected;
    ListedUnique(Fetch(m, NoFilter), expected);
  }

  /**
   * Adding a 2000.00 paycheck and a -1200.00 rent payment to an empty store
   * gives totals of 2000.00 income, -1200.00 expense and 800.00 balance.
   */
  method PaycheckThenRent() returns (t: TotalsResult)
    ensures t == TotalsResult(2000.0, -1200.0, 800.0)
  {
    var db := new DB();
    var first := db.Add(Date(2024, 3, 1), Some("09:00"), "Income", Some("Paycheck"), 2000.0);
    var second := db.Add(Date(2024, 3, 2), Some("10:00"), "Rent", Some("March rent"), -1200.0);
    var e1 := Entry(Date(2024, 3, 1), Some("09:00"), "Income", Some("Paycheck"), 2000.0);
    var e2 := Entry(Date(2024, 3, 2), Some("10:00"), "Rent", Some("March rent"), -1200.0);
    assert db.entries == map[1 := e1, 2 := e2];
    var listed := [Row(2, e2), Row(1, e1)];
    assert StrictlyListed(listed);
    assert forall r :: r in Fetch(db.entries, NoFilter) <==> r in listed;
    ListedUnique(Fetch(db.entries, NoFilter), listed);
    assert listed[1..] == [Row(1, e1)] && listed[1..][1..] == [];
    assert IncomeSum(listed[1..]) == 2000.0 && ExpenseSum(listed[1..]) == 0.0;
    assert IncomeSum(listed) == 2000.0 && ExpenseSum(listed) == -1200.0;
    t := Totals(db.entries, NoFilter);
  }
}
