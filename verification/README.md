# Expense ledger — a Dafny model

This project models the core of a small personal expense tracker (React and
TypeScript). It covers the **expense ledger**:

- the `Expense` record over two closed enumerations, 7 categories and 6 payment modes;
- the display tables and the "all values" lists;
- the summary computation;
- the summary view's derived figures: the total, the category breakdown, the top three expenses and the percentages;
- the page's add, update and delete handlers, with the storage slot each mutation saves to;
- the tab and edit-target state of the page;
- the expense form's validation, record construction and reset;
- the history list's newest-first ordering and its delete-confirmation state;
- the e-mail and password checks shared by the login and sign-up forms, with the effects their submit handlers perform.

Everything is a pure function over immutable datatypes. Each UI handler is a
function from the component's state (plus its inputs) to the next state. Each
asynchronous auth handler is a function that returns the sequence of effects
it performs (`Credentials.Effect`).

Modules, one per source file or shared concept:

| module | models |
|---|---|
| `Types` | `src/types/index.ts`: the enumerations, `Expense`, `Summary`, and the JSON literals of the enumerations |
| `Utils` | `src/lib/utils.ts`: names, colours, value lists, the storage slot, `calculateExpenseSummary` |
| `SummaryView` | `src/components/ExpenseSummary.tsx` |
| `IndexPage` | `src/pages/Index.tsx`, and how the page wires up the form and the list |
| `ExpenseForm` | `src/components/ExpenseForm.tsx` |
| `ExpenseList` | `src/components/ExpenseList.tsx` |
| `Credentials`, `LoginForm`, `SignUpForm` | `src/components/auth/LoginForm.tsx` and `SignUpForm.tsx` |
| `Sorting` | `Array.prototype.sort` with a descending comparator, which is stable |
| `Sums`, `Text`, `Seqs`, `Wrappers` | reductions, `String.prototype.trim` with the `\s` class, sequence facts, `Option` |

Modelling choices:

- **Amounts** are exact `real`s. This makes every sum independent of order.
- **Dates** are integer millisecond timestamps.
- **`Math.round(x)`** is `Floor(x + 1/2)`.
- **The sort.** Every `sort` call with a `b - a` comparator is the single stable descending insertion sort `Sorting.SortDesc`. `Sorting.StableSortUnique` shows that this choice is forced: any arrangement that is non-increasing and keeps the input order within each key equals `SortDesc`. Every sort runs on a fresh array (a `[...expenses]` copy, or the array that `map` and `filter` build), and the model is functional, so the ledger is never changed.
- **Storage** is one slot holding `Option<seq<Expense>>`. Saving writes the whole list; loading an absent slot gives `[]`.
- **The id generator** is not modelled as a function. The form's submit takes a parameter `freshId`, which is whatever `generateId` would return. Nothing is claimed about its freshness, because the code checks none: adding a record whose id is taken breaks uniqueness (`IndexPage.AddUniqueIff`).
- **The amount field** is the value `Number(amount)` parses to, as an `Option<real>`. `None` stands for an empty or non-numeric text.
- **The auth service's answer** is an input: `Accepted`, `Rejected(message)` for a returned error, or `Threw(message)` for an exception.
  - The login handler has no `try`. So after a thrown exception its trace stops at the request, and `loading` stays on.
  - The sign-up handler catches both kinds of failure and switches `loading` off in `finally`.

Behaviour worth knowing:

- **Updating an absent id is a no-op.** The `map` at src/pages/Index.tsx:30-32 replaces only records whose id matches, so the list comes back unchanged (`IndexPage.UpdateAbsentIsNoOp`).
- **Unreadable saved data is not recovered from.** `JSON.parse` at src/lib/utils.ts:41 would throw on a corrupt snapshot; the model has no such snapshot and adds no recovery (see "Left out").
- **The page accepts any record.** `handleExpenseSubmit` (src/pages/Index.tsx:27-55) does not re-check the amount or the payee, so `IndexPage.HandleExpenseSubmit` requires nothing. Validity is proved only for records that come through the form (`IndexPage.FormKeepsLedgerValid`).
- **Future dates are only greyed out in the calendar.** `isFutureDate` is used as the calendar's `disabled` test (src/components/ExpenseForm.tsx:156); the submit does not re-check the date.
- **An empty pending id counts as none.** `if (expenseToDelete)` at src/components/ExpenseList.tsx:65 treats `""` as absent, so `ExpenseList.ConfirmDelete` hands nothing on and the dialog stays as it was.

## Model

| member | source | states |
|---|---|---|
| `Types.CategoryKey` | src/types/index.ts:2-9 | every category has a non-empty JSON literal |
| `Types.PaymentModeKey` | src/types/index.ts:11-17 | every payment mode has a non-empty JSON literal |
| `Types.CategoryKeyRoundTrip` | src/types/index.ts:2-9 | every category's literal parses back to that category, so the seven literals denote seven distinct values |
| `Types.PaymentModeKeyRoundTrip` | src/types/index.ts:11-17 | every payment mode's literal parses back to that mode, so the six literals denote six distinct values |
| `Types.ParseCategory` | src/types/index.ts:2-9 | a literal that parses to a category is exactly that category's literal |
| `Types.ParsePaymentMode` | src/types/index.ts:11-17 | a literal that parses to a payment mode is exactly that mode's literal |
| `Types.CategoryKeyInjective` | src/types/index.ts:2-9 | two categories with the same literal are the same category |
| `Types.PaymentModeKeyInjective` | src/types/index.ts:11-17 | two payment modes with the same literal are the same mode |
| `Utils.CategoryColor` | src/lib/utils.ts:77-89 | every category has a colour, and it is a `#RRGGBB` hex literal |
| `Utils.CategoryName` | src/lib/utils.ts:92-104 | every category has a non-empty display name |
| `Utils.PaymentModeName` | src/lib/utils.ts:107-118 | every payment mode has a non-empty display name |
| `Utils.CategoryNameInjective` | src/lib/utils.ts:92-104 | no two categories share a display name |
| `Utils.CategoryColorInjective` | src/lib/utils.ts:77-89 | no two categories share a colour |
| `Utils.PaymentModeNameInjective` | src/lib/utils.ts:107-118 | no two payment modes share a display name |
| `Utils.CategoryIndex` | src/lib/utils.ts:121-123 | every category occurs in the list of all categories, at the returned position |
| `Utils.AllCategoriesListsEachOnce` | src/lib/utils.ts:121-123 | the category list has 7 entries, no duplicates, and contains every category |
| `Utils.AllPaymentModesListsEachOnce` | src/lib/utils.ts:126-128 | the payment-mode list has 6 entries, no duplicates, and contains every mode |
| `Utils.SaveExpenses` | src/lib/utils.ts:34-36 | what a save stores is read back by the next load as exactly the saved list |
| `Utils.LoadExpenses` | src/lib/utils.ts:39-42 | an absent slot loads as the empty list; a written slot loads as the list it holds |
| `Utils.LoadAfterSave` | src/lib/utils.ts:34-42 | loading right after saving a list returns exactly that list |
| `Utils.LoadAbsentSlot` | src/lib/utils.ts:39-42 | loading from a slot never written returns the empty list |
| `Utils.EmptySummary` | src/lib/utils.ts:46-65 | the starting summary has total 0 and an entry of 0 for every category and every payment mode |
| `Utils.CalculateExpenseSummary` | src/lib/utils.ts:45-74 | both maps have every enumeration value as a key; the total is the sum of all amounts; each category's entry is the sum of the amounts of the records in that category; each payment mode's entry likewise |
| `Utils.SummaryOfNoExpenses` | src/lib/utils.ts:46-65 | the summary of no records is the all-zero summary |
| `Utils.CategoryEntriesAddUp` | src/lib/utils.ts:67-71 | over any duplicate-free list of all categories, the category entries add up to the total |
| `Utils.PaymentModeEntriesAddUp` | src/lib/utils.ts:67-71 | over any duplicate-free list of all payment modes, the payment-mode entries add up to the total |
| `Utils.ByCategoryAddsUpToTotal` | src/lib/utils.ts:67-71 | the category entries, taken over the category list, add up to the total |
| `Utils.ByPaymentModeAddsUpToTotal` | src/lib/utils.ts:67-71 | the payment-mode entries, taken over the payment-mode list, add up to the total |
| `Utils.SummaryPermutationInvariant` | src/lib/utils.ts:67-71 | two lists holding the same records, in any order, have the same summary |
| `SummaryView.ReduceAmounts` | src/components/ExpenseSummary.tsx:13 | reducing from a starting value adds the sum of all amounts to it |
| `SummaryView.TotalAmount` | src/components/ExpenseSummary.tsx:13 | the view's total, a reduce from 0, is the sum of all amounts |
| `SummaryView.TotalAmountMatchesSummary` | src/components/ExpenseSummary.tsx:13 | the view's own total equals the summary's total, and is 0 for no records |
| `SummaryView.OfCategory` | src/components/ExpenseSummary.tsx:17-18 | every record the filter keeps has the requested category |
| `SummaryView.OfCategoryConcat` | src/components/ExpenseSummary.tsx:17-18 | filtering distributes over concatenation, so the kept records stay in ledger order |
| `SummaryView.OfCategoryCounts` | src/components/ExpenseSummary.tsx:17-18 | every record of the category is kept, as many times as it occurs, and no record of another category |
| `SummaryView.FilteredTotalIsCategoryTotal` | src/components/ExpenseSummary.tsx:17-19 | summing the filtered records gives the category's total |
| `SummaryView.Breakdown` | src/components/ExpenseSummary.tsx:16-26 | one row per listed category, in the list's order, each built for its category |
| `SummaryView.Positive` | src/components/ExpenseSummary.tsx:27 | a row survives the filter exactly when it was present and its value is positive |
| `SummaryView.CategoryData` | src/components/ExpenseSummary.tsx:16-30 | at most seven rows are shown (no more than there are categories), ordered by value, largest first |
| `SummaryView.CategoryDataEntries` | src/components/ExpenseSummary.tsx:16-27 | every shown row carries its category's name and colour, and a positive value equal to the category's total |
| `SummaryView.CategoryDataCoverage` | src/components/ExpenseSummary.tsx:16-27 | a category's row is shown exactly when the category's total is positive |
| `SummaryView.CategoryDataSorted` | src/components/ExpenseSummary.tsx:30 | shown rows are ordered by value, largest first |
| `SummaryView.BreakdownRanked` | src/components/ExpenseSummary.tsx:16-26 | the unsorted rows are strictly in category-list order |
| `SummaryView.PositiveKeepsRanking` | src/components/ExpenseSummary.tsx:27 | dropping zero rows keeps the rows strictly in category-list order |
| `SummaryView.CategoryDataTies` | src/components/ExpenseSummary.tsx:30 | two shown rows of equal value appear in category-list order, because the sort is stable |
| `SummaryView.CategoryDataNoDuplicates` | src/components/ExpenseSummary.tsx:16-27 | no category has two shown rows |
| `SummaryView.TopExpenses` | src/components/ExpenseSummary.tsx:33-35 | the top list has `min(3, n)` records, each taken from the ledger |
| `SummaryView.TopExpensesShape` | src/components/ExpenseSummary.tsx:33-35 | the top list has `min(3, n)` records, is a sub-multiset of the ledger, and is ordered by amount, largest first |
| `SummaryView.TopExpensesDominate` | src/components/ExpenseSummary.tsx:33-35 | every record in the top list is at least as large as every record left out |
| `SummaryView.TopExpensesStable` | src/components/ExpenseSummary.tsx:33-35 | among records of equal amount, the ones kept are a prefix of them in ledger order |
| `SummaryView.Round` | src/components/ExpenseSummary.tsx:115 | the rounded value is within one half of its argument, halves rounding up |
| `SummaryView.Percentage` | src/components/ExpenseSummary.tsx:115 | a non-positive total gives 0; otherwise the result is the share in percent rounded to within one half |
| `SummaryView.PercentageInRange` | src/components/ExpenseSummary.tsx:115 | a share between 0 and a positive total is between 0 and 100 percent; a zero total gives 0 |
| `SummaryView.CategoryTotalAtMostTotal` | src/components/ExpenseSummary.tsx:13-19 | with no negative amounts, a category's total is at most the grand total |
| `SummaryView.CategoryPercentagesInRange` | src/components/ExpenseSummary.tsx:115 | with no negative amounts, every shown row's percentage lies in 0..100 |
| `Sorting.SortDesc` | src/components/ExpenseSummary.tsx:30 | the sorted list is a permutation of the input, non-increasing under the key |
| `Sorting.SortDescStable` | src/components/ExpenseSummary.tsx:30 | for every key, the records carrying it keep their input order |
| `Sorting.StableSortUnique` | src/components/ExpenseSummary.tsx:30 | any non-increasing arrangement that keeps each key's records in input order is the sorted list |
| `Sorting.SameKeyOrderEqual` | src/components/ExpenseSummary.tsx:30 | two non-increasing lists that agree on the order within every key are equal |
| `Sorting.SortDescTiesRanked` | src/components/ExpenseSummary.tsx:30 | sorting a list that is strictly ordered by a rank leaves equal-key elements in rank order |
| `Sorting.PrefixDominates` | src/components/ExpenseSummary.tsx:33-35 | in a non-increasing list, every element before a cut is at least every element after it |
| `IndexPage.AddExpense` | src/pages/Index.tsx:43 | the new list is the old list, unchanged and in order, followed by the new record |
| `IndexPage.UpdateExpense` | src/pages/Index.tsx:30-32 | the length is kept; each record with the submitted id is replaced by the submitted record; every other record is untouched |
| `IndexPage.DeleteExpense` | src/pages/Index.tsx:65 | the kept records are exactly the records without the id, and none with the id remains |
| `IndexPage.DeleteKeepsOrder` | src/pages/Index.tsx:65 | deleting distributes over concatenation, so the kept records stay in their relative order |
| `IndexPage.DeleteAbsentIsNoOp` | src/pages/Index.tsx:65 | deleting an id no record has leaves the list unchanged |
| `IndexPage.DeleteIdempotent` | src/pages/Index.tsx:65 | deleting twice is the same as deleting once |
| `IndexPage.UpdateAbsentIsNoOp` | src/pages/Index.tsx:30-32 | updating with an id no record has leaves the list unchanged, with no error |
| `IndexPage.UpdateIdempotent` | src/pages/Index.tsx:30-32 | updating twice with the same record is the same as updating once |
| `IndexPage.UpdateKeepsIds` | src/pages/Index.tsx:30-32 | an update keeps every position's id, so unique ids stay unique |
| `IndexPage.AddUniqueIff` | src/pages/Index.tsx:43 | with unique ids, adding keeps them unique exactly when the new id is not already taken; no check is made |
| `IndexPage.DeleteUndoesAdd` | src/pages/Index.tsx:43-65 | deleting the id of a record just added gives what deleting that id before the add gives |
| `IndexPage.AddRaisesTotal` | src/pages/Index.tsx:43 | adding a record raises the total by its amount |
| `IndexPage.Mount` | src/pages/Index.tsx:15-17 | the first render has no records, no edit target and the summary tab |
| `IndexPage.LoadSaved` | src/pages/Index.tsx:21-24 | after the load effect the list is the saved snapshot, empty for an absent slot, and nothing else changes |
| `IndexPage.Commit` | src/pages/Index.tsx:33-34 | the new list is both the page's list and the saved snapshot; the tab and the edit target are kept |
| `IndexPage.HandleExpenseSubmit` | src/pages/Index.tsx:27-55 | without an edit target the record is appended, with one the records with its id are replaced; the edit target is cleared, the history tab is shown, and the snapshot equals the list |
| `IndexPage.HandleEditExpense` | src/pages/Index.tsx:58-61 | the record becomes the edit target and the form tab is shown; the list and storage are untouched |
| `IndexPage.HandleDeleteExpense` | src/pages/Index.tsx:64-73 | the list becomes the list without the id, is saved, and the tab and edit target are kept |
| `IndexPage.StartAdding` | src/pages/Index.tsx:88-92 | the "Add Expense" button clears the edit target before showing the form tab; the list is untouched |
| `IndexPage.CancelEdit` | src/pages/Index.tsx:121-124 | cancelling an edit clears the edit target and shows the history tab; the list is untouched |
| `IndexPage.SelectTab` | src/pages/Index.tsx:78 | choosing a tab shows it and changes nothing else |
| `IndexPage.RunKeepsSynced` | src/pages/Index.tsx:27-73 | once the snapshot is loaded, the saved snapshot equals the list after any sequence of actions |
| `IndexPage.StartUp` | src/pages/Index.tsx:15-24 | mounting and then loading shows the saved snapshot on the summary tab, with no edit target |
| `IndexPage.FormSubmit` | src/pages/Index.tsx:118-120 | the form's next state is its own submit result; a submit that hands no record on leaves the page unchanged; one that hands a record on shows the history tab, ends editing and leaves the snapshot equal to the list |
| `IndexPage.FormKeepsLedgerValid` | src/pages/Index.tsx:118-120 | if every record has a positive amount and a non-blank payee, that stays true after a form submit and after a delete |
| `IndexPage.EditReplacesRecord` | src/pages/Index.tsx:28-35 | a valid edit submit replaces in place the records with the edited id by the form's record, which keeps that id, and ends editing |
| `IndexPage.AddAppendsRecord` | src/pages/Index.tsx:41-54 | a valid submit with no edit target appends the form's record, under the fresh id and with the typed amount and payee, to the end of the list; the form resets to its defaults, the history tab is shown and the snapshot equals the list |
| `IndexPage.ListConfirm` | src/pages/Index.tsx:104-108 | the list's next state is its own confirm result, and a confirm that hands no id on leaves the page unchanged |
| `IndexPage.ClickAndConfirmDeletes` | src/components/ExpenseList.tsx:59-70 | click then confirm on a row with a non-empty id removes exactly the records with that id, from the list and from storage; with an empty id the page is unchanged |
| `ExpenseForm.StartOfDay` | src/components/ExpenseForm.tsx:42-43 | the start of the day is a local midnight at or before the instant, less than a day before it |
| `ExpenseForm.IsFutureDate` | src/components/ExpenseForm.tsx:41-45 | every instant after now is greyed out, and every instant a full day or more before now is selectable |
| `ExpenseForm.TodayIsSelectable` | src/components/ExpenseForm.tsx:41-45 | the first instant of today is not greyed out |
| `ExpenseForm.CalendarDayIsFutureIff` | src/components/ExpenseForm.tsx:41-45 | a calendar day (a local midnight) is greyed out exactly when it is a later day than today |
| `ExpenseForm.FieldsOf` | src/components/ExpenseForm.tsx:49-54 | the fields shown for a record are its own amount, category, date, payment mode and payee, with absent notes shown as empty text |
| `ExpenseForm.DefaultFields` | src/components/ExpenseForm.tsx:33-38 | a fresh form shows no amount, food, the current instant, cash, an empty payee and empty notes, so both the amount and the payee are flagged |
| `ExpenseForm.BuildExpense` | src/components/ExpenseForm.tsx:80-88 | the record takes the edited id or the fresh one, and reopening it shows the same fields except that its notes are blank-dropped and trimmed |
| `ExpenseForm.InitialState` | src/components/ExpenseForm.tsx:33-38 | a form opens with no errors, showing the edited record's fields or the defaults |
| `ExpenseForm.EditTargetChanged` | src/components/ExpenseForm.tsx:47-56 | a new edit target refills the fields from it; a cleared one leaves the form as it was |
| `ExpenseForm.ValidateForm` | src/components/ExpenseForm.tsx:58-70 | the amount is flagged exactly when it is missing or not positive, and the payee exactly when it is blank; both can be flagged |
| `ExpenseForm.NormalizeNotes` | src/components/ExpenseForm.tsx:87 | notes are dropped exactly when blank, and otherwise kept trimmed and non-empty |
| `ExpenseForm.HandleSubmit` | src/components/ExpenseForm.tsx:73-100 | the errors shown are the validation errors; a record is handed on exactly when there are none; a failed submit keeps the fields; the record is valid, keeps the amount, category, date, payment mode and the untrimmed payee, takes the edited id or the fresh one, and has normalised notes; the fields reset after an add and are kept after an edit |
| `ExpenseForm.EditRoundTrip` | src/components/ExpenseForm.tsx:47-88 | opening a valid record for editing and submitting it unchanged hands back that very record, when its notes are absent or already trimmed and non-empty |
| `ExpenseForm.BadAmountBlocksSubmit` | src/components/ExpenseForm.tsx:61-63 | a missing or non-positive amount blocks the submit and is flagged, whatever the payee |
| `ExpenseForm.PayeeStoredUntrimmed` | src/components/ExpenseForm.tsx:86-87 | for any valid form whose payee starts with whitespace, the payee is stored exactly as typed, while the same text typed as notes is stored trimmed and so differs |
| `ExpenseForm.PayeeStoredUntrimmedExample` | src/components/ExpenseForm.tsx:86-87 | one worked case: a payee " Cafe " is stored as " Cafe " and notes " tea " as "tea" |
| `Text.TrimIsCore` | src/components/ExpenseForm.tsx:65 | trimming cuts only whitespace from the two ends and leaves a piece that neither starts nor ends with whitespace |
| `Text.TrimEmptyIffBlank` | src/components/ExpenseForm.tsx:65 | trimming leaves nothing exactly when the string is all whitespace |
| `Text.TrimIdempotent` | src/components/ExpenseForm.tsx:87 | trimming a trimmed string changes nothing |
| `ExpenseList.SortedExpenses` | src/components/ExpenseList.tsx:51-53 | the shown list is a permutation of the ledger with dates never increasing |
| `ExpenseList.SortedExpensesStable` | src/components/ExpenseList.tsx:51-53 | records with the same date keep their ledger order |
| `ExpenseList.SortedExpensesUnique` | src/components/ExpenseList.tsx:51-53 | any newest-first arrangement that keeps each date's records in ledger order is the shown list |
| `ExpenseList.DeleteClick` | src/components/ExpenseList.tsx:59-62 | a delete click remembers the clicked id and opens the dialog |
| `ExpenseList.ConfirmDelete` | src/components/ExpenseList.tsx:64-70 | an id is handed on exactly when a non-empty one is pending; it is the pending id, and then the dialog closes and the id is cleared; otherwise nothing changes |
| `ExpenseList.DismissDialog` | src/components/ExpenseList.tsx:211 | cancelling closes the dialog and keeps the pending id |
| `ExpenseList.ClickThenConfirm` | src/components/ExpenseList.tsx:59-70 | click then confirm hands on exactly the clicked id and clears the pending state, whatever was pending before |
| `ExpenseList.ConfirmTwiceDeletesOnce` | src/components/ExpenseList.tsx:64-70 | a second confirm hands nothing on after one that did |
| `Credentials.ValidateEmail` | src/components/auth/LoginForm.tsx:17 | an accepted address has at least five characters and contains an '@' that is not its first character |
| `Credentials.ValidEmailHasOneAt` | src/components/auth/LoginForm.tsx:17 | an accepted address has exactly one '@' |
| `Credentials.ValidateEmailIffPattern` | src/components/auth/LoginForm.tsx:17 | the structural e-mail check (no whitespace; one '@', not in front; a '.' after it that is neither first nor last there) accepts exactly the strings the pattern matches |
| `Credentials.Validate` | src/components/auth/LoginForm.tsx:18-34 | the credentials pass exactly when the address is valid and the password has at least 8 characters; a bad address is the failure reported even when the password is also short |
| `Credentials.ErrorNotice` | src/components/auth/LoginForm.tsx:20-31 | a validation failure's toast is destructive |
| `Credentials.ErrorNoticesDiffer` | src/components/auth/LoginForm.tsx:20-31 | the two failures show different toasts |
| `LoginForm.HandleLogin` | src/components/auth/LoginForm.tsx:35-59 | a failed check shows its one toast and leaves loading as it was; otherwise the trace starts by switching loading on and making the sign-in request, exactly once. An accepted reply then gives exactly three more effects: the "Logged in successfully!" toast, `onSuccess`, and loading off. A rejected reply gives exactly two: its message as a destructive toast, and loading off. A thrown request ends the trace right after the request, with no toast and loading still on. The success toast and `onSuccess` occur exactly when the credentials pass and the reply is accepted |
| `LoginForm.InvalidEmailReportedFirst` | src/components/auth/LoginForm.tsx:19-25 | with an invalid address the handler only shows the invalid-address toast |
| `SignUpForm.HandleSignUp` | src/components/auth/SignUpForm.tsx:41-72 | a failed check shows its one toast and leaves loading as it was; otherwise the trace starts by switching loading on and making the sign-up request, exactly once, and ends by switching loading off. An accepted reply puts exactly the success toast and then `onSuccess` in between. A rejected or thrown reply puts exactly one destructive toast with its message there. The success toast and `onSuccess` occur exactly when the credentials pass and the reply is accepted |
| `SignUpForm.SameGateAsLogin` | src/components/auth/SignUpForm.tsx:21-43 | both forms apply the same e-mail check and password rule: on a failed check they do the same thing, and each makes its request exactly when the other does |

## Left out

- `formatCurrency`, `formatDate` and `toISOString`: locale formatting; dates stay integer instants.
- `generateId`: `Math.random`; the fresh id is the `freshId` parameter of the form's submit.
- `JSON.stringify` and `JSON.parse`: the slot holds the list itself, so a save and a load round-trip exactly. Corrupt saved data, on which the code's `JSON.parse` would throw, is not representable.
- IEEE double arithmetic: amounts are exact reals, so rounding errors of the sums are not modelled.
- `Number(amount)` and `Date` parsing: the form holds the parsed amount as an optional real, and its date as an instant.
- UTF-16 code units: strings are sequences of characters, and the password length counts characters.
- Time zones: the offset of local time from UTC is a parameter of `ExpenseForm.StartOfDay`.
- The form does not check the date on submit: only the calendar disables future days, and no member claims more.
- The calendar's `onSelect` and the form's field-by-field edits are not modelled, since each only sets one field. `ExpenseForm.Fields` is the state they write.
- The authentication SDK (`supabase.auth.*`), sessions, OAuth, routing, timers and navigation: SDK replies are the `AuthReply` input.
- The view-details dialog of the history list, the toasts of the page's handlers, the pie chart, and the other presentational components and markup.
