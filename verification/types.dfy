/**
 * The record types of the expense ledger: the two closed enumerations, the
 * expense record and the derived summary.
 */
module Types {
  import opened Wrappers

  /** The seven spending categories. */
  datatype Category = Food | Shopping | Bills | Entertainment | Transport | Health | Others

  /** The six ways an expense can be paid. */
  datatype PaymentMode = Cash | CreditCard | DebitCard | BankTransfer | MobilePayment | Other

  /**
   * One expense. `amount` is exact (a real, not a double); `date` is the
   * instant the expense happened, in milliseconds since the epoch (the source
   * keeps its ISO-8601 rendering). `notes` may be absent, which is not the
   * same as present and empty.
   */
  datatype Expense = Expense(
    id: string,
    amount: real,
    category: Category,
    date: int,
    paymentMode: PaymentMode,
    payeeName: string,
    notes: Option<string>)

  /** The derived summary: a total and two maps meant to be total over their enumerations. */
  datatype Summary = Summary(
    total: real,
    byCategory: map<Category, real>,
    byPaymentMode: map<PaymentMode, real>)

  /** Every category is a key of `m`. */
  ghost predicate CoversCategories(m: map<Category, real>) {
    forall c: Category :: c in m
  }

  /** Every payment mode is a key of `m`. */
  ghost predicate CoversPaymentModes(m: map<PaymentMode, real>) {
    forall p: PaymentMode :: p in m
  }

  /** The string literal that stands for a category in the stored JSON. */
  function CategoryKey(c: Category): (key: string)
    ensures key != []
  {
    match c
    case Food => "food"
    case Shopping => "shopping"
    case Bills => "bills"
    case Entertainment => "entertainment"
    case Transport => "transport"
    case Health => "health"
    case Others => "others"
  }

  /** The string literal that stands for a payment mode in the stored JSON. */
  function PaymentModeKey(p: PaymentMode): (key: string)
    ensures key != []
  {
    match p
    case Cash => "cash"
    case CreditCard => "credit card"
    case DebitCard => "debit card"
    case BankTransfer => "bank transfer"
    case MobilePayment => "mobile payment"
    case Other => "other"
  }

  /** Reads a category back from its literal; the inverse of `CategoryKey`. */
  function ParseCategory(key: string): (r: Option<Category>)
    ensures r.Some? ==> CategoryKey(r.value) == key
  {
    if key == "food" then Some(Food)
    else if key == "shopping" then Some(Shopping)
    else if key == "bills" then Some(Bills)
    else if key == "entertainment" then Some(Entertainment)
    else if key == "transport" then Some(Transport)
    else if key == "health" then Some(Health)
    else if key == "others" then Some(Others)
    else None
  }

  /** Reads a payment mode back from its literal; the inverse of `PaymentModeKey`. */
  function ParsePaymentMode(key: string): (r: Option<PaymentMode>)
    ensures r.Some? ==> PaymentModeKey(r.value) == key
  {
    if key == "cash" then Some(Cash)
    else if key == "credit card" then Some(CreditCard)
    else if key == "debit card" then Some(DebitCard)
    else if key == "bank transfer" then Some(BankTransfer)
    else if key == "mobile payment" then Some(MobilePayment)
    else if key == "other" then Some(Other)
    else None
  }

  /** Every category literal reads back as its category, so no two categories share a literal. */
  lemma CategoryKeyRoundTrip(c: Category)
    ensures ParseCategory(CategoryKey(c)) == Some(c)
  {
  }

  /** Every payment-mode literal reads back as its mode, so no two modes share a literal. */
  lemma PaymentModeKeyRoundTrip(p: PaymentMode)
    ensures ParsePaymentMode(PaymentModeKey(p)) == Some(p)
  {
  }

  /** The literals are pairwise distinct: the seven categories are seven distinct values. */
  lemma CategoryKeyInjective(c1: Category, c2: Category)
    ensures CategoryKey(c1) == CategoryKey(c2) ==> c1 == c2
  {
    CategoryKeyRoundTrip(c1);
    CategoryKeyRoundTrip(c2);
  }

  /** The literals are pairwise distinct: the six payment modes are six distinct values. */
  lemma PaymentModeKeyInjective(p1: PaymentMode, p2: PaymentMode)
    ensures PaymentModeKey(p1) == PaymentModeKey(p2) ==> p1 == p2
  {
    PaymentModeKeyRoundTrip(p1);
    PaymentModeKeyRoundTrip(p2);
  }
}
