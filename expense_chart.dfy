/**
 * The numeric part of the "Expenses by Category" chart: from the rows of
 * `by_category`, the chart keeps the categories whose sum is negative, shows
 * each by its absolute value, and adds those values up for the title.
 */
module ExpenseChart {
  import opened LedgerTypes
  import opened LedgerQuery

  /** One pie slice: the category it is labelled with and its (positive) value. */
  datatype Slice = Slice(category: string, value: real)

  function Abs(x: real): (r: real)
    ensures r >= 0.0 && (r == x || r == -x)
  {
    if x < 0.0 then -x else x
  }

  /**
   * The slices the chart shows for `data`, in the order of `data`: one for
   * each row with a negative sum, valued at the size of that sum.
   */
  function ExpenseSlices(data: seq<CategorySum>): (ss: seq<Slice>)
    ensures |ss| == |NegativeRows(data)|
    ensures forall i :: 0 <= i < |ss| ==> ss[i].value > 0.0
    ensures forall s :: s in ss <==> exists g :: g in data && g.sum < 0.0 && s == Slice(g.category, -g.sum)
  {
    if data == [] then []
    else
      var init, last := data[..|data| - 1], data[|data| - 1];
      assert data == init + [last];
      assert forall g :: g in data <==> g in init || g == last;
      NegativeRowsSnoc(init, last);
      ExpenseSlices(init) + (if last.sum < 0.0 then [Slice(last.category, -last.sum)] else [])
  }

  /** The positions of the rows of `data` whose sum is negative. */
  function NegativeRows(data: seq<CategorySum>): set<int>
  {
    set j | 0 <= j < |data| && data[j].sum < 0.0
  }

  /** Appending a row adds its position to the negative rows exactly when its sum is negative. */
  lemma NegativeRowsSnoc(init: seq<CategorySum>, last: CategorySum)
    ensures |NegativeRows(init + [last])| == |NegativeRows(init)| + (if last.sum < 0.0 then 1 else 0)
  {
    var data := init + [last];
    if last.sum < 0.0 {
      assert NegativeRows(data) == NegativeRows(init) + {|init|};
    } else {
      assert NegativeRows(data) == NegativeRows(init);
    }
  }

  /**
   * The slices of two runs of rows are the slices of the first followed by
   * those of the second: together with the slices of a single row, this
   * fixes each slice's position and multiplicity for every input.
   */
  lemma {:induction false} ExpenseSlicesAppend(a: seq<CategorySum>, b: seq<CategorySum>)
    ensures ExpenseSlices(a + b) == ExpenseSlices(a) + ExpenseSlices(b)
    decreases |b|
  {
    if b == [] {
      assert a + b == a;
    } else {
      var init, last := b[..|b| - 1], b[|b| - 1];
      assert (a + b)[..|a + b| - 1] == a + init;
      assert (a + b)[|a + b| - 1] == last;
      ExpenseSlicesAppend(a, init);
    }
  }

  /** A single row gives one slice valued at minus its sum if the sum is negative, and none otherwise. */
  lemma ExpenseSlicesOfRow(g: CategorySum)
    ensures ExpenseSlices([g]) == if g.sum < 0.0 then [Slice(g.category, -g.sum)] else []
  {
    assert [g][..0] == [];
  }

  /** The sum of the slice values, accumulated front to back. */
  function SliceTotal(ss: seq<Slice>): (t: real)
    ensures (forall i :: 0 <= i < |ss| ==> ss[i].value > 0.0) ==> t >= 0.0 && (t > 0.0 <==> ss != [])
  {
    if ss == [] then 0.0 else SliceTotal(ss[..|ss| - 1]) + ss[|ss| - 1].value
  }

  /** Rows listed in strictly ascending category order give slices in strictly ascending category order. */
  lemma {:induction false} ExpenseSlicesKeepOrder(data: seq<CategorySum>)
    requires forall i, j :: 0 <= i < j < |data| ==> LexLess(data[i].category, data[j].category)
    ensures forall i, j :: 0 <= i < j < |ExpenseSlices(data)|
              ==> LexLess(ExpenseSlices(data)[i].category, ExpenseSlices(data)[j].category)
  {
    if data != [] {
      var init, last := data[..|data| - 1], data[|data| - 1];
      ExpenseSlicesKeepOrder(init);
      var ss := ExpenseSlices(data);
      var head := ExpenseSlices(init);
      if last.sum < 0.0 {
        forall i | 0 <= i < |head|
          ensures LexLess(head[i].category, last.category)
        {
          assert head[i] in head;
          var g :| g in init && g.sum < 0.0 && head[i] == Slice(g.category, -g.sum);
          var k :| 0 <= k < |init| && init[k] == g;
          assert data[k] == g;
        }
        assert ss == head + [Slice(last.category, -last.sum)];
      }
    }
  }

  /** The slices of the first `i + 1` rows extend those of the first `i` by the slice of row `i`, if any. */
  lemma ExpenseSlicesStep(data: seq<CategorySum>, i: int)
    requires 0 <= i < |data|
    ensures ExpenseSlices(data[..i + 1])
            == ExpenseSlices(data[..i]) + (if data[i].sum < 0.0 then [Slice(data[i].category, -data[i].sum)] else [])
  {
    assert data[..i + 1][..i] == data[..i];
  }

  /**
   * The selection loop of `update_chart`: walks the `by_category` rows,
   * appends a slice for each negative sum and accumulates the shown total.
   * The total is the sum of the slices, never negative, and non-zero exactly
   * when some slice is shown.
   */
  method SelectExpenseSlices(data: seq<CategorySum>) returns (series: seq<Slice>, total: real)
    ensures series == ExpenseSlices(data)
    ensures total == SliceTotal(series)
    ensures total >= 0.0 && (total > 0.0 <==> series != [])
  {
    series := [];
    total := 0.0;
    for i := 0 to |data|
      invariant series == ExpenseSlices(data[..i])
      invariant total == SliceTotal(series)
    {
      ExpenseSlicesStep(data, i);
      var cat, amt := data[i].category, data[i].sum;
      if amt < 0.0 {
        var val := Abs(amt);
        if val > 0.0 {
          series := series + [Slice(cat, val)];
          total := total + val;
        }
      }
    }
    assert data[..|data|] == data;
  }

  /**
   * Fed the rows of `by_category`, the chart shows each overspent category
   * once, in ascending category order.
   */
  lemma ChartOfByCategory(m: map<int, Entry>, dtFrom: Option<Date>, dtTo: Option<Date>)
    ensures forall i, j :: 0 <= i < j < |ExpenseSlices(ByCategory(m, dtFrom, dtTo, None))|
              ==> LexLess(ExpenseSlices(ByCategory(m, dtFrom, dtTo, None))[i].category,
                          ExpenseSlices(ByCategory(m, dtFrom, dtTo, None))[j].category)
  {
    ExpenseSlicesKeepOrder(ByCategory(m, dtFrom, dtTo, None));
  }
}
