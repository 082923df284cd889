/**
 * The read side of the ledger store: the filtered, ordered listing (`fetch`),
 * the income/expense/balance totals over it (`totals`) and the per-category
 * sums over the date-filtered entries (`by_category`).
 *
 * The stored table is a finite map from id to entry; every query is a
 * function of that map and of the filter arguments.
 */
module LedgerQuery {
  import opened LedgerTypes

  /** The category filter value the user interface offers for "no category filter". */
  const AllCategories: string := "All"

  /**
   * The arguments of `fetch` and `totals`. An absent date bound (None or an
   * empty string in the source) imposes no bound.
   */
  datatype Filter = Filter(dtFrom: Option<Date>, dtTo: Option<Date>, category: Option<string>)

  /** A category argument restricts the listing unless it is absent, empty or "All". */
  predicate RestrictsCategory(category: Option<string>)
  {
    category.Some? && category.value != "" && category.value != AllCategories
  }

  /** The date part of the WHERE clause: both bounds are inclusive. */
  predicate InDateRange(e: Entry, dtFrom: Option<Date>, dtTo: Option<Date>)
  {
    (dtFrom.None? || !DateBefore(e.dt, dtFrom.value))
    && (dtTo.None? || !DateBefore(dtTo.value, e.dt))
  }

  /** The whole WHERE clause `fetch` builds for filter `f`. */
  predicate Matches(e: Entry, f: Filter)
  {
    InDateRange(e, f.dtFrom, f.dtTo)
    && (!RestrictsCategory(f.category) || e.category == f.category.value)
  }

  // ---------------------------------------------------------------------------
  // Listing a set of stored rows in ORDER BY order

  /** Row `k` is listed before every other row whose id is in `ks`. */
  predicate IsFirst(m: map<int, Entry>, ks: set<int>, k: int)
    requires ks <= m.Keys && k in ks
  {
    forall j :: j in ks && j != k ==> Precedes(Row(k, m[k]), Row(j, m[j]))
  }

  /** Some element of a set that is not empty. */
  lemma Pick<T>(s: set<T>) returns (x: T)
    requires s != {}
    ensures x in s
  {
    Inhabited(s);
    x :| x in s;
  }

  /**
   * Every set is empty or has an element. Stated on its own, without the
   * `s != {}` of `Pick`, so that the solver sees the witness's existence
   * without first deriving a clash with that requirement.
   */
  lemma Inhabited<T>(s: set<T>)
    ensures s == {} || exists x :: x in s
  {
    if forall x :: x !in s {
      assert s == {};
    }
  }

  lemma {:induction false} FirstExists(m: map<int, Entry>, ks: set<int>)
    requires ks <= m.Keys && ks != {}
    ensures exists k :: k in ks && IsFirst(m, ks, k)
    decreases ks
  {
    var k0 := Pick(ks);
    if ks == {k0} {
      assert IsFirst(m, ks, k0);
    } else {
      var rest := ks - {k0};
      FirstExists(m, rest);
      var k1 :| k1 in rest && IsFirst(m, rest, k1);
      var r0, r1 := Row(k0, m[k0]), Row(k1, m[k1]);
      PrecedesTotal(r0, r1);
      if Precedes(r0, r1) {
        forall j | j in ks && j != k0
          ensures Precedes(r0, Row(j, m[j]))
        {
          if j != k1 {
            PrecedesTransitive(r0, r1, Row(j, m[j]));
          }
        }
        assert IsFirst(m, ks, k0);
      } else {
        assert IsFirst(m, ks, k1);
      }
    }
  }

  /** At most one id of `ks` is listed first. */
  lemma FirstUnique(m: map<int, Entry>, ks: set<int>, k1: int, k2: int)
    requires ks <= m.Keys && k1 in ks && k2 in ks
    requires IsFirst(m, ks, k1) && IsFirst(m, ks, k2)
    ensures k1 == k2
  {
    if k1 != k2 {
      PrecedesAsymmetric(Row(k1, m[k1]), Row(k2, m[k2]));
    }
  }

  lemma FirstUniqueAll(m: map<int, Entry>, ks: set<int>)
    requires ks <= m.Keys
    ensures forall k1, k2 :: k1 in ks && k2 in ks && IsFirst(m, ks, k1) && IsFirst(m, ks, k2) ==> k1 == k2
  {
    forall k1, k2 | k1 in ks && k2 in ks && IsFirst(m, ks, k1) && IsFirst(m, ks, k2)
      ensures k1 == k2
    {
      FirstUnique(m, ks, k1, k2);
    }
  }

  /**
   * The rows of `m` whose ids are in `ks`, in the order the store lists them:
   * each row in the listing precedes every row after it.
   */
  function Listing(m: map<int, Entry>, ks: set<int>): (rs: seq<Row>)
    requires ks <= m.Keys
    ensures |rs| == |ks|
    ensures forall r :: r in rs <==> r.id in ks && r.entry == m[r.id]
    ensures StrictlyListed(rs)
    decreases ks
  {
    if ks == {} then []
    else
      FirstExists(m, ks);
      FirstUniqueAll(m, ks);
      var k :| k in ks && IsFirst(m, ks, k);
      [Row(k, m[k])] + Listing(m, ks - {k})
  }

  lemma SameRowsSameEmptiness(a: seq<Row>, b: seq<Row>)
    requires forall r :: r in a <==> r in b
    ensures |a| == 0 <==> |b| == 0
  {
    if |a| > 0 {
      assert a[0] in b;
    }
    if |b| > 0 {
      assert b[0] in a;
    }
  }

  /** Two strictly ordered listings of the same rows are the same listing. */
  lemma {:induction false} ListedUnique(a: seq<Row>, b: seq<Row>)
    requires StrictlyListed(a) && StrictlyListed(b)
    requires forall r :: r in a <==> r in b
    ensures a == b
    decreases |a|
  {
    SameRowsSameEmptiness(a, b);
    if |a| == 0 {
    } else {
      assert a[0] in b;
      assert |b| > 0;
      assert b[0] in a;
      if a[0] != b[0] {
        var i :| 0 <= i < |a| && a[i] == b[0];
        var j :| 0 <= j < |b| && b[j] == a[0];
        assert Precedes(a[0], b[0]);
        assert Precedes(b[0], a[0]);
        PrecedesAsymmetric(a[0], b[0]);
        assert false;
      }
      forall r
        ensures r in a[1..] <==> r in b[1..]
      {
        if r in a[1..] {
          var i :| 1 <= i < |a| && a[i] == r;
          PrecedesIrreflexive(a[0]);
          assert r in b && r != b[0];
        }
        if r in b[1..] {
          var j :| 1 <= j < |b| && b[j] == r;
          PrecedesIrreflexive(b[0]);
          assert r in a && r != a[0];
        }
      }
      ListedUnique(a[1..], b[1..]);
      assert a == [a[0]] + a[1..] && b == [b[0]] + b[1..];
    }
  }

  /** A listing never holds two rows with the same id. */
  lemma ListingDistinctIds(m: map<int, Entry>, ks: set<int>)
    requires ks <= m.Keys
    ensures forall i, j :: 0 <= i < j < |Listing(m, ks)| ==> Listing(m, ks)[i].id != Listing(m, ks)[j].id
  {
    var rs := Listing(m, ks);
    forall i, j | 0 <= i < j < |rs|
      ensures rs[i].id != rs[j].id
    {
      assert rs[i] in rs && rs[j] in rs;
      PrecedesIrreflexive(rs[i]);
    }
  }

  /** A listing depends only on the rows it lists. */
  lemma ListingAgree(m1: map<int, Entry>, m2: map<int, Entry>, ks: set<int>)
    requires ks <= m1.Keys && ks <= m2.Keys
    requires forall k :: k in ks ==> m1[k] == m2[k]
    ensures Listing(m1, ks) == Listing(m2, ks)
  {
    ListedUnique(Listing(m1, ks), Listing(m2, ks));
  }

  /** A listing starts with the row listed first and goes on with the listing of the others. */
  lemma ListingStartsWith(m: map<int, Entry>, ks: set<int>, h: int)
    requires ks <= m.Keys && h in ks && IsFirst(m, ks, h)
    ensures Listing(m, ks) == [Row(h, m[h])] + Listing(m, ks - {h})
  {
    var l := Listing(m, ks);
    assert l[0].id in ks && IsFirst(m, ks, l[0].id) && l == [Row(l[0].id, m[l[0].id])] + Listing(m, ks - {l[0].id});
    FirstUnique(m, ks, h, l[0].id);
  }

  /** A row listed first among some rows is listed first among any of them that include it. */
  lemma FirstOfFewer(m: map<int, Entry>, big: set<int>, ks: set<int>, h: int)
    requires ks <= big <= m.Keys && h in ks && IsFirst(m, big, h)
    ensures IsFirst(m, ks, h)
  {
  }

  /** Listing one more row adds its amount to the sum of the listed amounts. */
  lemma {:induction false} ListingSumInsert(m: map<int, Entry>, ks: set<int>, k: int)
    requires ks <= m.Keys && k in m && k !in ks
    ensures AmountSum(Listing(m, ks + {k})) == AmountSum(Listing(m, ks)) + m[k].amount
    decreases ks
  {
    var big := ks + {k};
    FirstExists(m, big);
    var h :| h in big && IsFirst(m, big, h);
    ListingStartsWith(m, big, h);
    AmountSumCons(Row(h, m[h]), Listing(m, big - {h}));
    if h == k {
      assert big - {h} == ks;
    } else {
      var rest := ks - {h};
      assert rest + {k} == big - {h};
      FirstOfFewer(m, big, ks, h);
      ListingStartsWith(m, ks, h);
      AmountSumCons(Row(h, m[h]), Listing(m, rest));
      ListingSumInsert(m, rest, k);
    }
  }

  // ---------------------------------------------------------------------------
  // fetch

  /** The ids of the stored rows that the WHERE clause of `fetch` selects. */
  function MatchingIds(m: map<int, Entry>, f: Filter): (ks: set<int>)
    ensures ks <= m.Keys
  {
    set k | k in m && Matches(m[k], f)
  }

  /**
   * `fetch(dt_from, dt_to, category)`: a row is listed exactly when it is
   * stored and passes the filter, each at most once, most recent first.
   */
  function Fetch(m: map<int, Entry>, f: Filter): (rs: seq<Row>)
    ensures forall r :: r in rs <==> r.id in m && m[r.id] == r.entry && Matches(r.entry, f)
    ensures StrictlyListed(rs)
    ensures |rs| == |MatchingIds(m, f)|
  {
    Listing(m, MatchingIds(m, f))
  }

  /** `fetch` lists each stored row at most once. */
  lemma FetchDistinctIds(m: map<int, Entry>, f: Filter)
    ensures forall i, j :: 0 <= i < j < |Fetch(m, f)| ==> Fetch(m, f)[i].id != Fetch(m, f)[j].id
  {
    ListingDistinctIds(m, MatchingIds(m, f));
  }

  // ---------------------------------------------------------------------------
  // totals

  /** The three figures `totals` returns. */
  datatype TotalsResult = TotalsResult(income: real, expense: real, balance: real)

  /** The sum of the amounts of `rs`. */
  function AmountSum(rs: seq<Row>): real
  {
    if rs == [] then 0.0 else rs[0].entry.amount + AmountSum(rs[1..])
  }

  lemma AmountSumCons(r: Row, rs: seq<Row>)
    ensures AmountSum([r] + rs) == r.entry.amount + AmountSum(rs)
  {
    assert ([r] + rs)[1..] == rs;
  }

  /** The sum of the amounts that are >= 0: never negative, and positive exactly when some amount is. */
  function IncomeSum(rs: seq<Row>): (s: real)
    ensures s >= 0.0
    ensures s > 0.0 <==> exists r :: r in rs && r.entry.amount > 0.0
  {
    if rs == [] then 0.0
    else
      assert forall r :: r in rs <==> r == rs[0] || r in rs[1..];
      (if rs[0].entry.amount >= 0.0 then rs[0].entry.amount else 0.0) + IncomeSum(rs[1..])
  }

  /** The sum of the amounts that are < 0: never positive, and negative exactly when some amount is. */
  function ExpenseSum(rs: seq<Row>): (s: real)
    ensures s <= 0.0
    ensures s < 0.0 <==> exists r :: r in rs && r.entry.amount < 0.0
  {
    if rs == [] then 0.0
    else
      assert forall r :: r in rs <==> r == rs[0] || r in rs[1..];
      (if rs[0].entry.amount < 0.0 then rs[0].entry.amount else 0.0) + ExpenseSum(rs[1..])
  }

  /** Splitting amounts by sign loses nothing: income + expense is the plain sum. */
  lemma {:induction false} IncomePlusExpense(rs: seq<Row>)
    ensures IncomeSum(rs) + ExpenseSum(rs) == AmountSum(rs)
  {
    if rs != [] {
      IncomePlusExpense(rs[1..]);
    }
  }

  /** `fetch` lists a positive (negative) amount exactly when a matching stored entry has one. */
  lemma ListedAmountSigns(m: map<int, Entry>, f: Filter)
    ensures (exists r :: r in Fetch(m, f) && r.entry.amount > 0.0)
            <==> (exists k :: k in m && Matches(m[k], f) && m[k].amount > 0.0)
    ensures (exists r :: r in Fetch(m, f) && r.entry.amount < 0.0)
            <==> (exists k :: k in m && Matches(m[k], f) && m[k].amount < 0.0)
  {
    var rows := Fetch(m, f);
    if exists k :: k in m && Matches(m[k], f) && m[k].amount > 0.0 {
      var k :| k in m && Matches(m[k], f) && m[k].amount > 0.0;
      assert Row(k, m[k]) in rows;
    }
    if exists k :: k in m && Matches(m[k], f) && m[k].amount < 0.0 {
      var k :| k in m && Matches(m[k], f) && m[k].amount < 0.0;
      assert Row(k, m[k]) in rows;
    }
  }

  /**
   * `totals(dt_from, dt_to, category)`, computed over exactly the rows `fetch`
   * lists for the same arguments.
   */
  function Totals(m: map<int, Entry>, f: Filter): (t: TotalsResult)
    ensures t.income >= 0.0 && t.expense <= 0.0
    ensures t.balance == t.income + t.expense == AmountSum(Fetch(m, f))
    ensures t.income > 0.0 <==> exists k :: k in m && Matches(m[k], f) && m[k].amount > 0.0
    ensures t.expense < 0.0 <==> exists k :: k in m && Matches(m[k], f) && m[k].amount < 0.0
    ensures MatchingIds(m, f) == {} ==> t == TotalsResult(0.0, 0.0, 0.0)
  {
    var rows := Fetch(m, f);
    var income, expense := IncomeSum(rows), ExpenseSum(rows);
    IncomePlusExpense(rows);
    ListedAmountSigns(m, f);
    TotalsResult(income, expense, income + expense)
  }

  /** The stored entries on one side of the sign split: amounts >= 0 when `income`, amounts < 0 otherwise. */
  function SignPart(m: map<int, Entry>, income: bool): (p: map<int, Entry>)
    ensures forall k :: k in p <==> k in m && (m[k].amount >= 0.0) == income
    ensures forall k :: k in p ==> p[k] == m[k]
  {
    map k | k in m && (m[k].amount >= 0.0) == income :: m[k]
  }

  /** The rows of `rs` on one side of the sign split, in their order in `rs`. */
  function OfSign(rs: seq<Row>, income: bool): (sub: seq<Row>)
    ensures forall r :: r in sub <==> r in rs && (r.entry.amount >= 0.0) == income
    ensures StrictlyListed(rs) ==> StrictlyListed(sub)
  {
    if rs == [] then []
    else
      var rest := OfSign(rs[1..], income);
      assert forall r :: r in rs <==> r == rs[0] || r in rs[1..];
      assert StrictlyListed(rs) ==> forall r :: r in rest ==> Precedes(rs[0], r);
      if (rs[0].entry.amount >= 0.0) == income then [rs[0]] + rest else rest
  }

  /** The income sum is the plain sum of the amounts >= 0, and the expense sum that of the amounts < 0. */
  lemma {:induction false} SignSums(rs: seq<Row>)
    ensures IncomeSum(rs) == AmountSum(OfSign(rs, true))
    ensures ExpenseSum(rs) == AmountSum(OfSign(rs, false))
  {
    if rs != [] {
      SignSums(rs[1..]);
      AmountSumCons(rs[0], OfSign(rs[1..], true));
      AmountSumCons(rs[0], OfSign(rs[1..], false));
    }
  }

  /** Listing one side of the sign split gives the listing of the whole store restricted to that side. */
  lemma SignPartFetch(m: map<int, Entry>, f: Filter, income: bool)
    ensures Fetch(SignPart(m, income), f) == OfSign(Fetch(m, f), income)
  {
    ListedUnique(Fetch(SignPart(m, income), f), OfSign(Fetch(m, f), income));
  }

  /**
   * `totals` reports as income the balance of the matching entries with an
   * amount >= 0, and as expense the balance of those with an amount < 0.
   */
  lemma TotalsSplitBySign(m: map<int, Entry>, f: Filter)
    ensures Totals(m, f).income == Totals(SignPart(m, true), f).balance
    ensures Totals(m, f).expense == Totals(SignPart(m, false), f).balance
  {
    SignSums(Fetch(m, f));
    SignPartFetch(m, f, true);
    SignPartFetch(m, f, false);
  }

  // ---------------------------------------------------------------------------
  // by_category

  /** One row of `by_category`: a category and the sum of its amounts. */
  datatype CategorySum = CategorySum(category: string, sum: real)

  /** The rows of `rs` whose category is `c`, in their order in `rs`. */
  function OfCategory(rs: seq<Row>, c: string): (sub: seq<Row>)
    ensures forall r :: r in sub <==> r in rs && r.entry.category == c
    ensures StrictlyListed(rs) ==> StrictlyListed(sub)
  {
    if rs == [] then []
    else
      var rest := OfCategory(rs[1..], c);
      assert forall r :: r in rs <==> r == rs[0] || r in rs[1..];
      assert StrictlyListed(rs) ==> forall r :: r in rest ==> Precedes(rs[0], r);
      if rs[0].entry.category == c then [rs[0]] + rest else rest
  }

  /** The categories that occur in `rs`. */
  function CategoriesOf(rs: seq<Row>): set<string>
  {
    set r | r in rs :: r.entry.category
  }

  /** Category `c` sorts before every other category in `cs`. */
  predicate IsLeast(cs: set<string>, c: string)
  {
    forall d :: d in cs && d != c ==> LexLess(c, d)
  }

  lemma {:induction false} LeastExists(cs: set<string>)
    requires cs != {}
    ensures exists c :: c in cs && IsLeast(cs, c)
    decreases cs
  {
    var c0 := Pick(cs);
    if cs == {c0} {
      assert IsLeast(cs, c0);
    } else {
      var rest := cs - {c0};
      LeastExists(rest);
      var c1 :| c1 in rest && IsLeast(rest, c1);
      LexTotal(c0, c1);
      if LexLess(c0, c1) {
        forall d | d in cs && d != c0
          ensures LexLess(c0, d)
        {
          if d != c1 {
            LexTransitive(c0, c1, d);
          }
        }
        assert IsLeast(cs, c0);
      } else {
        assert IsLeast(cs, c1);
      }
    }
  }

  lemma LeastUnique(cs: set<string>)
    ensures forall c1, c2 :: c1 in cs && c2 in cs && IsLeast(cs, c1) && IsLeast(cs, c2) ==> c1 == c2
  {
    forall c1, c2 | c1 in cs && c2 in cs && IsLeast(cs, c1) && IsLeast(cs, c2)
      ensures c1 == c2
    {
      if c1 != c2 {
        LexAsymmetric(c1, c2);
      }
    }
  }

  /** The categories of `cs` in ascending BINARY order (`ORDER BY category ASC`). */
  function Ascending(cs: set<string>): (l: seq<string>)
    ensures |l| == |cs|
    ensures forall c :: c in l <==> c in cs
    ensures forall i, j :: 0 <= i < j < |l| ==> LexLess(l[i], l[j])
    decreases cs
  {
    if cs == {} then []
    else
      LeastExists(cs);
      LeastUnique(cs);
      var c :| c in cs && IsLeast(cs, c);
      [c] + Ascending(cs - {c})
  }

  /** One `CategorySum` per category of `cats`, in that order, summing the rows of that category. */
  function Groups(rs: seq<Row>, cats: seq<string>): (gs: seq<CategorySum>)
    ensures |gs| == |cats|
    ensures forall i :: 0 <= i < |gs| ==> gs[i] == CategorySum(cats[i], AmountSum(OfCategory(rs, cats[i])))
  {
    if cats == [] then []
    else [CategorySum(cats[0], AmountSum(OfCategory(rs, cats[0])))] + Groups(rs, cats[1..])
  }

  /** Every group sums the rows of its own category. */
  lemma GroupSums(rs: seq<Row>, cats: seq<string>)
    ensures forall g :: g in Groups(rs, cats) ==> g.sum == AmountSum(OfCategory(rs, g.category))
  {
    var gs := Groups(rs, cats);
    forall g | g in gs
      ensures g.sum == AmountSum(OfCategory(rs, g.category))
    {
      var i :| 0 <= i < |gs| && gs[i] == g;
    }
  }

  /** The filter `by_category` applies: the date bounds only. */
  function DatesOnly(dtFrom: Option<Date>, dtTo: Option<Date>): Filter
  {
    Filter(dtFrom, dtTo, None)
  }

  /** The categories of the stored entries within the date bounds. */
  function CategoriesWithin(m: map<int, Entry>, dtFrom: Option<Date>, dtTo: Option<Date>): set<string>
  {
    set k | k in m && InDateRange(m[k], dtFrom, dtTo) :: m[k].category
  }

  /** The categories named by a `by_category` result. */
  function GroupCategories(gs: seq<CategorySum>): set<string>
  {
    set g | g in gs :: g.category
  }

  /** The date-only listing holds exactly the categories of the entries within the date bounds. */
  lemma CategoriesOfDateListing(m: map<int, Entry>, dtFrom: Option<Date>, dtTo: Option<Date>)
    ensures CategoriesOf(Fetch(m, DatesOnly(dtFrom, dtTo))) == CategoriesWithin(m, dtFrom, dtTo)
  {
    var rows := Fetch(m, DatesOnly(dtFrom, dtTo));
    forall c | c in CategoriesOf(rows)
      ensures c in CategoriesWithin(m, dtFrom, dtTo)
    {
      var r :| r in rows && r.entry.category == c;
      assert r.id in m && InDateRange(m[r.id], dtFrom, dtTo) && m[r.id].category == c;
    }
    forall c | c in CategoriesWithin(m, dtFrom, dtTo)
      ensures c in CategoriesOf(rows)
    {
      var k :| k in m && InDateRange(m[k], dtFrom, dtTo) && m[k].category == c;
      assert Row(k, m[k]) in rows;
    }
  }

  /** The groups built for a list of categories name exactly those categories. */
  lemma {:induction false} GroupsName(rs: seq<Row>, cats: seq<string>)
    ensures GroupCategories(Groups(rs, cats)) == set c | c in cats
  {
    var gs := Groups(rs, cats);
    forall c | c in GroupCategories(gs)
      ensures c in cats
    {
      var g :| g in gs && g.category == c;
      var i :| 0 <= i < |gs| && gs[i] == g;
      assert cats[i] == c;
    }
    forall c | c in cats
      ensures c in GroupCategories(gs)
    {
      var i :| 0 <= i < |cats| && cats[i] == c;
      assert gs[i] in gs;
    }
  }

  /** Grouping by the ascending list of a set of categories names each of them once, in order. */
  lemma GroupsOfAscending(rs: seq<Row>, cs: set<string>)
    ensures GroupCategories(Groups(rs, Ascending(cs))) == cs
    ensures |Groups(rs, Ascending(cs))| == |cs|
    ensures forall i, j :: 0 <= i < j < |Groups(rs, Ascending(cs))|
              ==> LexLess(Groups(rs, Ascending(cs))[i].category, Groups(rs, Ascending(cs))[j].category)
  {
    var cats := Ascending(cs);
    GroupsName(rs, cats);
    assert (set c | c in cats) == cs;
  }

  /**
   * `by_category(dt_from, dt_to, category)`: the category argument is ignored.
   * One row per category present among the entries within the date bounds
   * (and no other), in strictly ascending category order.
   */
  function ByCategory(m: map<int, Entry>, dtFrom: Option<Date>, dtTo: Option<Date>,
                      category: Option<string>): (gs: seq<CategorySum>)
    ensures GroupCategories(gs) == CategoriesWithin(m, dtFrom, dtTo)
    ensures |gs| == |CategoriesWithin(m, dtFrom, dtTo)|
    ensures forall i, j :: 0 <= i < j < |gs| ==> LexLess(gs[i].category, gs[j].category)
  {
    var rows := Fetch(m, DatesOnly(dtFrom, dtTo));
    CategoriesOfDateListing(m, dtFrom, dtTo);
    GroupsOfAscending(rows, CategoriesOf(rows));
    Groups(rows, Ascending(CategoriesOf(rows)))
  }

  // ---------------------------------------------------------------------------
  // How by_category relates to fetch and totals

  /**
   * Restricting the date-only listing to one category gives the listing `fetch`
   * returns for that category filter.
   */
  lemma FetchOfCategory(m: map<int, Entry>, dtFrom: Option<Date>, dtTo: Option<Date>, c: string)
    requires RestrictsCategory(Some(c))
    ensures Fetch(m, Filter(dtFrom, dtTo, Some(c))) == OfCategory(Fetch(m, DatesOnly(dtFrom, dtTo)), c)
  {
    var rows := Fetch(m, DatesOnly(dtFrom, dtTo));
    ListedUnique(Fetch(m, Filter(dtFrom, dtTo, Some(c))), OfCategory(rows, c));
  }

  /**
   * Each `by_category` row carries the balance `totals` reports when filtering
   * by that row's category over the same dates (for every category `fetch`
   * can filter by).
   */
  lemma ByCategoryRowIsBalance(m: map<int, Entry>, dtFrom: Option<Date>, dtTo: Option<Date>,
                               category: Option<string>)
    ensures forall g :: g in ByCategory(m, dtFrom, dtTo, category) && RestrictsCategory(Some(g.category))
              ==> g.sum == Totals(m, Filter(dtFrom, dtTo, Some(g.category))).balance
  {
    var gs := ByCategory(m, dtFrom, dtTo, category);
    forall g | g in gs && RestrictsCategory(Some(g.category))
      ensures g.sum == Totals(m, Filter(dtFrom, dtTo, Some(g.category))).balance
    {
      ByCategoryRowSum(m, dtFrom, dtTo, category);
      FetchOfCategory(m, dtFrom, dtTo, g.category);
      CategoryPartFetch(m, dtFrom, dtTo, g.category);
    }
  }

  /** The stored entries whose category is `c`, under their ids. */
  function CategoryPart(m: map<int, Entry>, c: string): (p: map<int, Entry>)
    ensures forall k :: k in p <==> k in m && m[k].category == c
    ensures forall k :: k in p ==> p[k] == m[k]
  {
    map k | k in m && m[k].category == c :: m[k]
  }

  /** Listing the entries of category `c` within the dates is the date-only listing restricted to `c`. */
  lemma CategoryPartFetch(m: map<int, Entry>, dtFrom: Option<Date>, dtTo: Option<Date>, c: string)
    ensures Fetch(CategoryPart(m, c), DatesOnly(dtFrom, dtTo)) == OfCategory(Fetch(m, DatesOnly(dtFrom, dtTo)), c)
  {
    ListedUnique(Fetch(CategoryPart(m, c), DatesOnly(dtFrom, dtTo)), OfCategory(Fetch(m, DatesOnly(dtFrom, dtTo)), c));
  }

  /**
   * Each `by_category` row, whatever its category, sums exactly the amounts of
   * the stored entries within the dates that have its category: the balance
   * of a store holding only those entries.
   */
  lemma ByCategoryRowSum(m: map<int, Entry>, dtFrom: Option<Date>, dtTo: Option<Date>, category: Option<string>)
    ensures forall g :: g in ByCategory(m, dtFrom, dtTo, category)
              ==> g.sum == Totals(CategoryPart(m, g.category), DatesOnly(dtFrom, dtTo)).balance
  {
    var rows := Fetch(m, DatesOnly(dtFrom, dtTo));
    GroupSums(rows, Ascending(CategoriesOf(rows)));
    forall c
      ensures AmountSum(OfCategory(rows, c)) == Totals(CategoryPart(m, c), DatesOnly(dtFrom, dtTo)).balance
    {
      CategoryPartFetch(m, dtFrom, dtTo, c);
    }
  }

  /** The sum of the `sum` column of a `by_category` result. */
  function GroupsSum(gs: seq<CategorySum>): real
  {
    if gs == [] then 0.0 else gs[0].sum + GroupsSum(gs[1..])
  }

  predicate Distinct(cats: seq<string>)
  {
    forall i, j :: 0 <= i < j < |cats| ==> cats[i] != cats[j]
  }

  /** Adding one row in front changes the group sums by its amount, if its category is grouped. */
  lemma {:induction false} GroupsSumCons(r: Row, rest: seq<Row>, cats: seq<string>)
    requires Distinct(cats)
    ensures GroupsSum(Groups([r] + rest, cats))
            == (if r.entry.category in cats then r.entry.amount else 0.0) + GroupsSum(Groups(rest, cats))
    decreases |cats|
  {
    if cats != [] {
      assert ([r] + rest)[1..] == rest;
      assert Distinct(cats[1..]);
      GroupsSumCons(r, rest, cats[1..]);
      assert r.entry.category in cats <==> r.entry.category == cats[0] || r.entry.category in cats[1..];
      assert r.entry.category == cats[0] ==> r.entry.category !in cats[1..];
    }
  }

  lemma {:induction false} GroupsSumOfNothing(cats: seq<string>)
    ensures GroupsSum(Groups([], cats)) == 0.0
    decreases |cats|
  {
    if cats != [] {
      GroupsSumOfNothing(cats[1..]);
    }
  }

  /** Grouping by a duplicate-free list covering every category loses and repeats no amount. */
  lemma {:induction false} GroupsSumIsAmountSum(rs: seq<Row>, cats: seq<string>)
    requires Distinct(cats)
    requires forall r :: r in rs ==> r.entry.category in cats
    ensures GroupsSum(Groups(rs, cats)) == AmountSum(rs)
    decreases |rs|
  {
    if rs == [] {
      GroupsSumOfNothing(cats);
    } else {
      assert rs == [rs[0]] + rs[1..];
      GroupsSumCons(rs[0], rs[1..], cats);
      GroupsSumIsAmountSum(rs[1..], cats);
    }
  }

  /**
   * The `by_category` sums add up to the balance `totals` reports for the same
   * dates with the "All" category.
   */
  lemma ByCategoryAddsUpToBalance(m: map<int, Entry>, dtFrom: Option<Date>, dtTo: Option<Date>,
                                  category: Option<string>)
    ensures GroupsSum(ByCategory(m, dtFrom, dtTo, category))
            == Totals(m, Filter(dtFrom, dtTo, Some(AllCategories))).balance
  {
    var rows := Fetch(m, DatesOnly(dtFrom, dtTo));
    var cats := Ascending(CategoriesOf(rows));
    assert ByCategory(m, dtFrom, dtTo, category) == Groups(rows, cats);
    forall i, j | 0 <= i < j < |cats|
      ensures cats[i] != cats[j]
    {
      LexIrreflexive(cats[i]);
    }
    forall r | r in rows
      ensures r.entry.category in cats
    {
      assert r.entry.category in CategoriesOf(rows);
    }
    GroupsSumIsAmountSum(rows, cats);
    var all := Filter(dtFrom, dtTo, Some(AllCategories));
    assert !RestrictsCategory(all.category);
    forall k ensures k in MatchingIds(m, all) <==> k in MatchingIds(m, DatesOnly(dtFrom, dtTo)) {
    }
    assert MatchingIds(m, all) == MatchingIds(m, DatesOnly(dtFrom, dtTo));
  }
}
