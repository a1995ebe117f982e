/**
 * The figures the summary view derives from the ledger on its own: the
 * total, the per-category breakdown (zero categories dropped, sorted by
 * amount, largest first), the three largest expenses and the rounded share
 * of each category.
 */
module SummaryView {
  import opened Types
  import opened Sums
  import opened Utils
  import opened Sorting
  import opened Seqs

  /** `s.reduce((sum, e) => sum + e.amount, acc)`: the running sum from the front. */
  function ReduceAmounts(acc: real, s: seq<Expense>): (r: real)
    ensures r == acc + Total(s)
    decreases |s|
  {
    if s == [] then acc
    else
      TotalOfCons(s);
      ReduceAmounts(acc + s[0].amount, s[1..])
  }

  /** The grand total splits off the first record. */
  lemma TotalOfCons(s: seq<Expense>)
    requires s != []
    ensures Total(s) == s[0].amount + Total(s[1..])
  {
    assert s == [s[0]] + s[1..];
    SumOfConcat([s[0]], s[1..], Amount);
    SumOfSingleton(s[0], Amount);
  }

  /** The view's total, a reduce over the amounts starting from 0; it is the sum of all amounts. */
  function TotalAmount(expenses: seq<Expense>): (total: real)
    ensures total == Total(expenses)
  {
    ReduceAmounts(0.0, expenses)
  }

  /** The view's total agrees with the summary's, and is 0 for no expenses. */
  lemma TotalAmountMatchesSummary(expenses: seq<Expense>)
    ensures TotalAmount(expenses) == CalculateExpenseSummary(expenses).total
    ensures expenses == [] ==> TotalAmount(expenses) == 0.0
  {
  }

  /** The records of category `c`, in ledger order. */
  function OfCategory(expenses: seq<Expense>, c: Category): (r: seq<Expense>)
    ensures forall i | 0 <= i < |r| :: r[i].category == c
    decreases |expenses|
  {
    if expenses == [] then []
    else
      var init, e := expenses[..|expenses| - 1], expenses[|expenses| - 1];
      OfCategory(init, c) + (if e.category == c then [e] else [])
  }

  /** Filtering distributes over concatenation: the kept records stay in ledger order. */
  lemma {:induction false} OfCategoryConcat(a: seq<Expense>, b: seq<Expense>, c: Category)
    ensures OfCategory(a + b, c) == OfCategory(a, c) + OfCategory(b, c)
    decreases |b|
  {
    if b == [] {
      assert a + b == a;
    } else {
      var init, e := b[..|b| - 1], b[|b| - 1];
      var tail := if e.category == c then [e] else [];
      assert (a + b)[..|a + b| - 1] == a + init;
      assert (a + b)[|a + b| - 1] == e;
      OfCategoryConcat(a, init, c);
      ConcatAssoc(OfCategory(a, c), OfCategory(init, c), tail);
    }
  }

  /** Filtering keeps every record of category `c`, as often as it occurs, and nothing else. */
  lemma {:induction false} OfCategoryCounts(expenses: seq<Expense>, c: Category, x: Expense)
    ensures multiset(OfCategory(expenses, c))[x] == if x.category == c then multiset(expenses)[x] else 0
    decreases |expenses|
  {
    if expenses != [] {
      var init, e := expenses[..|expenses| - 1], expenses[|expenses| - 1];
      assert expenses == init + [e];
      var tail := if e.category == c then [e] else [];
      assert multiset(expenses) == multiset(init) + multiset{e};
      assert OfCategory(expenses, c) == OfCategory(init, c) + tail;
      assert multiset(OfCategory(expenses, c)) == multiset(OfCategory(init, c)) + multiset(tail);
      OfCategoryCounts(init, c, x);
    }
  }

  /** Summing the filtered records gives the category's total. */
  lemma {:induction false} FilteredTotalIsCategoryTotal(expenses: seq<Expense>, c: Category)
    ensures TotalAmount(OfCategory(expenses, c)) == CategoryTotal(expenses, c)
    decreases |expenses|
  {
    if expenses != [] {
      var init, e := expenses[..|expenses| - 1], expenses[|expenses| - 1];
      FilteredTotalIsCategoryTotal(init, c);
      var tail := if e.category == c then [e] else [];
      assert OfCategory(expenses, c) == OfCategory(init, c) + tail;
      SumOfConcat(OfCategory(init, c), tail, Amount);
      SumOfSingleton(e, Amount);
      assert Total(OfCategory(expenses, c)) == Total(OfCategory(init, c)) + Total(tail);
      assert CategoryTotal(expenses, c) == CategoryTotal(init, c) + CategoryShare(c)(e);
    }
  }

  /** One row of the breakdown. */
  datatype CategoryDatum = CategoryDatum(name: string, value: real, color: string, category: Category)

  /** The row the view builds for category `c`. */
  function DatumFor(expenses: seq<Expense>, c: Category): CategoryDatum {
    CategoryDatum(CategoryName(c), TotalAmount(OfCategory(expenses, c)), CategoryColor(c), c)
  }

  /** `cs.map(c => DatumFor(expenses, c))`. */
  function Breakdown(cs: seq<Category>, expenses: seq<Expense>): (r: seq<CategoryDatum>)
    ensures |r| == |cs|
    ensures forall i | 0 <= i < |cs| :: r[i] == DatumFor(expenses, cs[i])
    decreases |cs|
  {
    if cs == [] then [] else [DatumFor(expenses, cs[0])] + Breakdown(cs[1..], expenses)
  }

  /** `ds.filter(d => d.value > 0)`. */
  function Positive(ds: seq<CategoryDatum>): (r: seq<CategoryDatum>)
    ensures forall d :: d in r <==> d in ds && d.value > 0.0
    decreases |ds|
  {
    if ds == [] then []
    else (if ds[0].value > 0.0 then [ds[0]] else []) + Positive(ds[1..])
  }

  function DatumValue(d: CategoryDatum): real {
    d.value
  }

  function DatumRank(d: CategoryDatum): int {
    CategoryIndex(d.category)
  }

  /** The breakdown rows as the view shows them: at most one per category, largest value first. */
  function CategoryData(expenses: seq<Expense>): (r: seq<CategoryDatum>)
    ensures |r| <= |AllCategories|
    ensures forall i, j | 0 <= i < j < |r| :: r[i].value >= r[j].value
  {
    var all := Breakdown(AllCategories, expenses);
    var rows := Positive(all);
    PositiveShorter(all);
    assert |rows| <= |AllCategories|;
    var r := SortDesc(rows, DatumValue);
    assert |r| == |rows|;
    ValuesNonIncreasing(r);
    r
  }

  /** Rows non-increasing under `DatumValue` have non-increasing values. */
  lemma ValuesNonIncreasing(r: seq<CategoryDatum>)
    requires NonIncreasing(r, DatumValue)
    ensures forall i, j | 0 <= i < j < |r| :: r[i].value >= r[j].value
  {
    forall i, j | 0 <= i < j < |r| ensures r[i].value >= r[j].value {
      assert DatumValue(r[i]) >= DatumValue(r[j]);
    }
  }

  lemma {:induction false} PositiveShorter(ds: seq<CategoryDatum>)
    ensures |Positive(ds)| <= |ds|
    decreases |ds|
  {
    if ds != [] {
      PositiveShorter(ds[1..]);
    }
  }

  /** A row of the sorted breakdown is a positive row of the unsorted one. */
  lemma RowOfBreakdown(expenses: seq<Expense>, d: CategoryDatum)
    requires d in CategoryData(expenses)
    ensures d in Positive(Breakdown(AllCategories, expenses))
  {
    assert d in multiset(CategoryData(expenses));
  }

  /** A positive row of the unsorted breakdown is its category's row. */
  lemma PositiveRowIsDatum(expenses: seq<Expense>, d: CategoryDatum)
    requires d in Positive(Breakdown(AllCategories, expenses))
    ensures d == DatumFor(expenses, d.category) && d.value > 0.0
  {
  }

  /**
   * Every row is its category's own row: the category's name and colour, and
   * a positive value equal to the category's total.
   */
  lemma CategoryDataEntries(expenses: seq<Expense>)
    ensures forall d | d in CategoryData(expenses) ::
              && d == DatumFor(expenses, d.category)
              && d.value == CategoryTotal(expenses, d.category)
              && d.value > 0.0
  {
    forall d | d in CategoryData(expenses)
      ensures d == DatumFor(expenses, d.category)
      ensures d.value == CategoryTotal(expenses, d.category) && d.value > 0.0
    {
      RowOfBreakdown(expenses, d);
      PositiveRowIsDatum(expenses, d);
      FilteredTotalIsCategoryTotal(expenses, d.category);
    }
  }

  /** A category has a row exactly when its summed amount is positive. */
  lemma CategoryDataCoverage(expenses: seq<Expense>, c: Category)
    ensures DatumFor(expenses, c) in CategoryData(expenses) <==> CategoryTotal(expenses, c) > 0.0
  {
    var pre := Positive(Breakdown(AllCategories, expenses));
    var d := DatumFor(expenses, c);
    FilteredTotalIsCategoryTotal(expenses, c);
    assert AllCategories[CategoryIndex(c)] == c;
    assert d in CategoryData(expenses) <==> d in multiset(CategoryData(expenses));
    assert d in pre <==> d in multiset(pre);
  }

  /** Rows are ordered by value, largest first. */
  lemma CategoryDataSorted(expenses: seq<Expense>)
    ensures forall i, j | 0 <= i < j < |CategoryData(expenses)| ::
              CategoryData(expenses)[i].value >= CategoryData(expenses)[j].value
  {
    assert NonIncreasing(CategoryData(expenses), DatumValue);
  }

  lemma {:induction false} PositiveKeepsRanking(ds: seq<CategoryDatum>)
    requires StrictlyIncreasing(ds, DatumRank)
    ensures StrictlyIncreasing(Positive(ds), DatumRank)
    decreases |ds|
  {
    if ds != [] {
      StrictlyIncreasingSuffix(ds, DatumRank);
      PositiveKeepsRanking(ds[1..]);
      var rest := Positive(ds[1..]);
      forall j | 0 <= j < |rest| ensures DatumRank(ds[0]) < DatumRank(rest[j]) {
        assert rest[j] in rest;
        var i :| 0 <= i < |ds[1..]| && ds[1..][i] == rest[j];
        assert ds[i + 1] == rest[j];
      }
    }
  }

  /** The unsorted breakdown over `AllCategories` is in `AllCategories` order. */
  lemma BreakdownRanked(expenses: seq<Expense>)
    ensures StrictlyIncreasing(Breakdown(AllCategories, expenses), DatumRank)
  {
    var all := Breakdown(AllCategories, expenses);
    forall i, j | 0 <= i < j < |all| ensures DatumRank(all[i]) < DatumRank(all[j]) {
      assert all[i].category == AllCategories[i] && all[j].category == AllCategories[j];
      IndexOfListedCategory(i);
      IndexOfListedCategory(j);
    }
  }

  /** The category at position `i` of `AllCategories` has index `i`. */
  lemma IndexOfListedCategory(i: int)
    requires 0 <= i < |AllCategories|
    ensures CategoryIndex(AllCategories[i]) == i
  {
    AllCategoriesListsEachOnce();
    var m := CategoryIndex(AllCategories[i]);
    assert AllCategories[m] == AllCategories[i];
  }

  /** Rows of equal value keep the order of `AllCategories`, because the sort is stable. */
  lemma CategoryDataTies(expenses: seq<Expense>)
    ensures forall i, j | 0 <= i < j < |CategoryData(expenses)|
                        && CategoryData(expenses)[i].value == CategoryData(expenses)[j].value ::
              CategoryIndex(CategoryData(expenses)[i].category)
              < CategoryIndex(CategoryData(expenses)[j].category)
  {
    var all := Breakdown(AllCategories, expenses);
    BreakdownRanked(expenses);
    PositiveKeepsRanking(all);
    SortDescTiesRanked(Positive(all), DatumValue, DatumRank);
  }

  /** No category has two rows. */
  lemma CategoryDataNoDuplicates(expenses: seq<Expense>)
    ensures forall i, j | 0 <= i < j < |CategoryData(expenses)| ::
              CategoryData(expenses)[i].category != CategoryData(expenses)[j].category
  {
    var r := CategoryData(expenses);
    CategoryDataEntries(expenses);
    CategoryDataTies(expenses);
    forall i, j | 0 <= i < j < |r| ensures r[i].category != r[j].category {
      assert r[i] in r && r[j] in r;
    }
  }

  // ---------------------------------------------------------------------------
  // Top expenses

  function Min(a: int, b: int): int {
    if a <= b then a else b
  }

  /** A copy of the list sorted by amount, largest first, cut to its first three. */
  function TopExpenses(expenses: seq<Expense>): (top: seq<Expense>)
    ensures |top| == Min(3, |expenses|)
    ensures forall x | x in top :: x in expenses
  {
    var sorted := SortDesc(expenses, Amount);
    var top := sorted[..Min(3, |expenses|)];
    assert forall x | x in top :: x in multiset(sorted);
    top
  }

  /** The top list has `min(3, |expenses|)` records, drawn from the ledger, largest first. */
  lemma TopExpensesShape(expenses: seq<Expense>)
    ensures |TopExpenses(expenses)| == Min(3, |expenses|)
    ensures multiset(TopExpenses(expenses)) <= multiset(expenses)
    ensures forall i, j | 0 <= i < j < |TopExpenses(expenses)| ::
              TopExpenses(expenses)[i].amount >= TopExpenses(expenses)[j].amount
  {
    var sorted := SortDesc(expenses, Amount);
    var n := Min(3, |expenses|);
    assert sorted == sorted[..n] + sorted[n..];
    assert multiset(sorted) == multiset(sorted[..n]) + multiset(sorted[n..]);
    forall i, j | 0 <= i < j < n ensures sorted[..n][i].amount >= sorted[..n][j].amount {
      assert Amount(sorted[i]) >= Amount(sorted[j]);
    }
  }

  /** Every record left out of the top list is at most as large as every record in it. */
  lemma TopExpensesDominate(expenses: seq<Expense>)
    ensures forall x: Expense, y: Expense
              | x in TopExpenses(expenses) && y in multiset(expenses) - multiset(TopExpenses(expenses)) ::
              x.amount >= y.amount
  {
    var sorted := SortDesc(expenses, Amount);
    var n := Min(3, |expenses|);
    var top, rest := sorted[..n], sorted[n..];
    assert sorted == top + rest;
    assert multiset(sorted) == multiset(top) + multiset(rest);
    assert multiset(expenses) - multiset(top) == multiset(rest);
    PrefixDominates(sorted, Amount, n);
    forall y: Expense | y in multiset(rest) ensures y in rest {
    }
  }

  /** Among records of equal amount, the ones kept are the earliest in the ledger. */
  lemma TopExpensesStable(expenses: seq<Expense>, k: real)
    ensures WithKey(TopExpenses(expenses), Amount, k) <= WithKey(expenses, Amount, k)
  {
    var sorted := SortDesc(expenses, Amount);
    var n := Min(3, |expenses|);
    assert sorted == sorted[..n] + sorted[n..];
    SortDescStable(expenses, Amount, k);
    WithKeyConcat(sorted[..n], sorted[n..], Amount, k);
  }

  // ---------------------------------------------------------------------------
  // Percentages

  /** `Math.round`: the nearest integer, halves rounded up. */
  function Round(x: real): (r: int)
    ensures x - 0.5 < r as real <= x + 0.5
  {
    (x + 0.5).Floor
  }

  /** A row's share of the total, in whole percent; 0 when the total is not positive. */
  function Percentage(value: real, total: real): (p: int)
    ensures total <= 0.0 ==> p == 0
    ensures total > 0.0 ==> value / total * 100.0 - 0.5 < p as real <= value / total * 100.0 + 0.5
  {
    if total > 0.0 then Round(value / total * 100.0) else 0
  }

  /** A share of a positive total that lies between 0 and the total is between 0 and 100 percent. */
  lemma PercentageInRange(value: real, total: real)
    requires 0.0 <= value <= total
    ensures 0 <= Percentage(value, total) <= 100
    ensures total == 0.0 ==> Percentage(value, total) == 0
  {
    if total > 0.0 {
      var x := value / total * 100.0;
      assert value / total <= 1.0 by {
        assert value / total * total == value;
      }
      assert 0.0 <= x <= 100.0;
    }
  }

  /** With no negative amounts, a category's total is at most the grand total. */
  lemma CategoryTotalAtMostTotal(expenses: seq<Expense>, c: Category)
    requires forall i | 0 <= i < |expenses| :: expenses[i].amount >= 0.0
    ensures CategoryTotal(expenses, c) <= TotalAmount(expenses)
  {
    forall i | 0 <= i < |expenses| ensures CategoryShare(c)(expenses[i]) <= Amount(expenses[i]) {
    }
    SumOfMonotone(expenses, CategoryShare(c), Amount);
  }

  /** With no negative amounts, every row's percentage is between 0 and 100. */
  lemma CategoryPercentagesInRange(expenses: seq<Expense>)
    requires forall i | 0 <= i < |expenses| :: expenses[i].amount >= 0.0
    ensures forall d | d in CategoryData(expenses) ::
              0 <= Percentage(d.value, TotalAmount(expenses)) <= 100
  {
    CategoryDataEntries(expenses);
    forall d | d in CategoryData(expenses)
      ensures 0 <= Percentage(d.value, TotalAmount(expenses)) <= 100
    {
      CategoryTotalAtMostTotal(expenses, d.category);
      PercentageInRange(d.value, TotalAmount(expenses));
    }
  }
}
