/**
 * The shared utilities of the ledger: the display tables for the two
 * enumerations, the lists of all their values, the single storage slot the
 * ledger is saved to, and the summary computation.
 */
module Utils {
  import opened Wrappers
  import opened Types
  import opened Sums

  // ---------------------------------------------------------------------------
  // Display tables

  predicate IsHexDigit(ch: char) {
    ('0' <= ch <= '9') || ('A' <= ch <= 'F')
  }

  /** A `#RRGGBB` colour literal. */
  predicate IsHexColor(s: string) {
    |s| == 7 && s[0] == '#' && forall i | 1 <= i < 7 :: IsHexDigit(s[i])
  }

  /** The chart colour of each category. */
  function CategoryColor(c: Category): (color: string)
    ensures IsHexColor(color)
  {
    match c
    case Food => "#4CAF50"
    case Shopping => "#2196F3"
    case Bills => "#FF9800"
    case Entertainment => "#9C27B0"
    case Transport => "#F44336"
    case Health => "#E91E63"
    case Others => "#607D8B"
  }

  /** The human-readable name of each category. */
  function CategoryName(c: Category): (name: string)
    ensures name != []
  {
    match c
    case Food => "Food & Dining"
    case Shopping => "Shopping"
    case Bills => "Bills & Utilities"
    case Entertainment => "Entertainment"
    case Transport => "Transportation"
    case Health => "Healthcare"
    case Others => "Others"
  }

  /** The human-readable name of each payment mode. */
  function PaymentModeName(p: PaymentMode): (name: string)
    ensures name != []
  {
    match p
    case Cash => "Cash"
    case CreditCard => "Credit Card"
    case DebitCard => "Debit Card"
    case BankTransfer => "Bank Transfer"
    case MobilePayment => "Mobile Payment"
    case Other => "Other"
  }

  /** No two categories share a display name. */
  lemma CategoryNameInjective(c1: Category, c2: Category)
    ensures CategoryName(c1) == CategoryName(c2) ==> c1 == c2
  {
  }

  /** No two categories share a colour. */
  lemma CategoryColorInjective(c1: Category, c2: Category)
    ensures CategoryColor(c1) == CategoryColor(c2) ==> c1 == c2
  {
  }

  /** No two payment modes share a display name. */
  lemma PaymentModeNameInjective(p1: PaymentMode, p2: PaymentMode)
    ensures PaymentModeName(p1) == PaymentModeName(p2) ==> p1 == p2
  {
  }

  // ---------------------------------------------------------------------------
  // Lists of all values

  /** Every category, in display order. */
  const AllCategories: seq<Category> :=
    [Food, Shopping, Bills, Entertainment, Transport, Health, Others]

  /** Every payment mode, in display order. */
  const AllPaymentModes: seq<PaymentMode> :=
    [Cash, CreditCard, DebitCard, BankTransfer, MobilePayment, Other]

  /** The position of `c` in `AllCategories`. */
  function CategoryIndex(c: Category): (i: nat)
    ensures i < |AllCategories| && AllCategories[i] == c
  {
    match c
    case Food => 0
    case Shopping => 1
    case Bills => 2
    case Entertainment => 3
    case Transport => 4
    case Health => 5
    case Others => 6
  }

  /** `AllCategories` lists each of the seven categories exactly once. */
  lemma AllCategoriesListsEachOnce()
    ensures |AllCategories| == 7 && Distinct(AllCategories)
    ensures forall c: Category :: c in AllCategories
  {
    forall c: Category ensures c in AllCategories {
      assert AllCategories[CategoryIndex(c)] == c;
    }
  }

  /** `AllPaymentModes` lists each of the six payment modes exactly once. */
  lemma AllPaymentModesListsEachOnce()
    ensures |AllPaymentModes| == 6 && Distinct(AllPaymentModes)
    ensures forall p: PaymentMode :: p in AllPaymentModes
  {
    forall p: PaymentMode ensures p in AllPaymentModes {
      match p
      case Cash => assert AllPaymentModes[0] == p;
      case CreditCard => assert AllPaymentModes[1] == p;
      case DebitCard => assert AllPaymentModes[2] == p;
      case BankTransfer => assert AllPaymentModes[3] == p;
      case MobilePayment => assert AllPaymentModes[4] == p;
      case Other => assert AllPaymentModes[5] == p;
    }
  }

  // ---------------------------------------------------------------------------
  // Storage: one slot, absent until the first save

  /** The storage slot; `None` when nothing has been saved yet. */
  datatype Storage = Storage(slot: Option<seq<Expense>>)

  /** Saving replaces whatever the slot held with the whole list. */
  function SaveExpenses(expenses: seq<Expense>): (st: Storage)
    ensures LoadExpenses(st) == expenses
  {
    Storage(Some(expenses))
  }

  /** Loading reads the slot back; an absent slot reads as no expenses. */
  function LoadExpenses(st: Storage): (r: seq<Expense>)
    ensures st.slot.None? ==> r == []
    ensures st.slot.Some? ==> Storage(Some(r)) == st
  {
    st.slot.GetOr([])
  }

  /** Loading right after a save returns exactly what was saved. */
  lemma LoadAfterSave(expenses: seq<Expense>)
    ensures LoadExpenses(SaveExpenses(expenses)) == expenses
  {
  }

  /** Loading from a slot that was never written yields the empty list. */
  lemma LoadAbsentSlot()
    ensures LoadExpenses(Storage(None)) == []
  {
  }

  // ---------------------------------------------------------------------------
  // Summary

  /** The starting summary: every category and payment mode present, and everything zero. */
  function EmptySummary(): (s: Summary)
    ensures s.total == 0.0
    ensures forall c: Category :: c in s.byCategory && s.byCategory[c] == 0.0
    ensures forall p: PaymentMode :: p in s.byPaymentMode && s.byPaymentMode[p] == 0.0
  {
    AllCategoriesListsEachOnce();
    AllPaymentModesListsEachOnce();
    Summary(
      0.0,
      map c | c in AllCategories :: 0.0,
      map p | p in AllPaymentModes :: 0.0)
  }

  /** One step of the loop: add `e`'s amount to the total, to its category and to its payment mode. */
  function Accumulate(s: Summary, e: Expense): Summary
    requires e.category in s.byCategory && e.paymentMode in s.byPaymentMode
  {
    Summary(
      s.total + e.amount,
      s.byCategory[e.category := s.byCategory[e.category] + e.amount],
      s.byPaymentMode[e.paymentMode := s.byPaymentMode[e.paymentMode] + e.amount])
  }

  /**
   * The summary of a list: the total of all amounts, and for every category
   * and every payment mode the total of the records that carry it. Both maps
   * have every enumeration value as a key, zero where no record carries it.
   */
  function CalculateExpenseSummary(expenses: seq<Expense>): (s: Summary)
    ensures CoversCategories(s.byCategory) && CoversPaymentModes(s.byPaymentMode)
    ensures s.total == Total(expenses)
    ensures forall c: Category :: s.byCategory[c] == CategoryTotal(expenses, c)
    ensures forall p: PaymentMode :: s.byPaymentMode[p] == ModeTotal(expenses, p)
    decreases |expenses|
  {
    if expenses == [] then EmptySummary()
    else
      Accumulate(CalculateExpenseSummary(expenses[..|expenses| - 1]), expenses[|expenses| - 1])
  }

  /** One step of the fold: the summary of a list is the summary of all but its last record, plus that record. */
  lemma SummaryUnfold(expenses: seq<Expense>)
    requires expenses != []
    ensures CalculateExpenseSummary(expenses)
         == Accumulate(CalculateExpenseSummary(expenses[..|expenses| - 1]), expenses[|expenses| - 1])
  {
  }

  /** The summary of no expenses is the all-zero summary. */
  lemma SummaryOfNoExpenses()
    ensures CalculateExpenseSummary([]) == EmptySummary()
  {
  }

  /** One accumulation step keeps the sum of the byCategory entries equal to the total. */
  lemma AccumulateCategorySum(cs: seq<Category>, s: Summary, e: Expense)
    requires Distinct(cs) && forall c: Category :: c in cs
    requires CoversCategories(s.byCategory) && CoversPaymentModes(s.byPaymentMode)
    requires SumValues(cs, s.byCategory) == s.total
    ensures SumValues(cs, Accumulate(s, e).byCategory) == Accumulate(s, e).total
  {
    SumValuesBump(cs, s.byCategory, e.category, e.amount);
  }

  /** Over any duplicate-free list of all categories, the category entries add up to the total. */
  lemma {:induction false} CategoryEntriesAddUp(cs: seq<Category>, expenses: seq<Expense>)
    requires Distinct(cs) && forall c: Category :: c in cs
    ensures SumValues(cs, CalculateExpenseSummary(expenses).byCategory)
         == CalculateExpenseSummary(expenses).total
    decreases |expenses|
  {
    if expenses == [] {
      SumValuesZero(cs, EmptySummary().byCategory);
    } else {
      var init, e := expenses[..|expenses| - 1], expenses[|expenses| - 1];
      SummaryUnfold(expenses);
      CategoryEntriesAddUp(cs, init);
      AccumulateCategorySum(cs, CalculateExpenseSummary(init), e);
    }
  }

  /** One accumulation step keeps the sum of the byPaymentMode entries equal to the total. */
  lemma AccumulatePaymentModeSum(ps: seq<PaymentMode>, s: Summary, e: Expense)
    requires Distinct(ps) && forall p: PaymentMode :: p in ps
    requires CoversCategories(s.byCategory) && CoversPaymentModes(s.byPaymentMode)
    requires SumValues(ps, s.byPaymentMode) == s.total
    ensures SumValues(ps, Accumulate(s, e).byPaymentMode) == Accumulate(s, e).total
  {
    SumValuesBump(ps, s.byPaymentMode, e.paymentMode, e.amount);
  }

  /** Over any duplicate-free list of all payment modes, the payment-mode entries add up to the total. */
  lemma {:induction false} PaymentModeEntriesAddUp(ps: seq<PaymentMode>, expenses: seq<Expense>)
    requires Distinct(ps) && forall p: PaymentMode :: p in ps
    ensures SumValues(ps, CalculateExpenseSummary(expenses).byPaymentMode)
         == CalculateExpenseSummary(expenses).total
    decreases |expenses|
  {
    if expenses == [] {
      SumValuesZero(ps, EmptySummary().byPaymentMode);
    } else {
      var init, e := expenses[..|expenses| - 1], expenses[|expenses| - 1];
      SummaryUnfold(expenses);
      PaymentModeEntriesAddUp(ps, init);
      AccumulatePaymentModeSum(ps, CalculateExpenseSummary(init), e);
    }
  }

  /** The category entries of a summary, over `AllCategories`, add up to its total. */
  lemma ByCategoryAddsUpToTotal(expenses: seq<Expense>)
    ensures SumValues(AllCategories, CalculateExpenseSummary(expenses).byCategory)
         == CalculateExpenseSummary(expenses).total
  {
    AllCategoriesListsEachOnce();
    CategoryEntriesAddUp(AllCategories, expenses);
  }

  /** The payment-mode entries of a summary, over `AllPaymentModes`, add up to its total. */
  lemma ByPaymentModeAddsUpToTotal(expenses: seq<Expense>)
    ensures SumValues(AllPaymentModes, CalculateExpenseSummary(expenses).byPaymentMode)
         == CalculateExpenseSummary(expenses).total
  {
    AllPaymentModesListsEachOnce();
    PaymentModeEntriesAddUp(AllPaymentModes, expenses);
  }

  /** The summary depends only on which records there are, not on their order. */
  lemma SummaryPermutationInvariant(a: seq<Expense>, b: seq<Expense>)
    requires multiset(a) == multiset(b)
    ensures CalculateExpenseSummary(a) == CalculateExpenseSummary(b)
  {
    var sa, sb := CalculateExpenseSummary(a), CalculateExpenseSummary(b);
    SumOfPermutation(a, b, Amount);
    forall c: Category ensures sa.byCategory[c] == sb.byCategory[c] {
      SumOfPermutation(a, b, CategoryShare(c));
    }
    forall p: PaymentMode ensures sa.byPaymentMode[p] == sb.byPaymentMode[p] {
      SumOfPermutation(a, b, ModeShare(p));
    }
    SummariesAgree(sa, sb);
  }

  /** Two summaries over every category and payment mode that agree entry by entry are equal. */
  lemma SummariesAgree(sa: Summary, sb: Summary)
    requires CoversCategories(sa.byCategory) && CoversCategories(sb.byCategory)
    requires CoversPaymentModes(sa.byPaymentMode) && CoversPaymentModes(sb.byPaymentMode)
    requires sa.total == sb.total
    requires forall c: Category :: sa.byCategory[c] == sb.byCategory[c]
    requires forall p: PaymentMode :: sa.byPaymentMode[p] == sb.byPaymentMode[p]
    ensures sa == sb
  {
    assert sa.byCategory.Keys == sb.byCategory.Keys;
    assert sa.byPaymentMode.Keys == sb.byPaymentMode.Keys;
  }
}
