/**
 * The page that owns the ledger: the list of records, the record being edited
 * (if any), the active tab and the storage slot. Every mutation replaces the
 * list and saves the new list.
 */
module IndexPage {
  import opened Wrappers
  import opened Types
  import opened Seqs
  import opened Sums
  import opened Utils
  import ExpenseForm
  import ExpenseList

  // ---------------------------------------------------------------------------
  // Ledger operations

  /** Some record of `expenses` has id `id`. */
  predicate HasId(expenses: seq<Expense>, id: string) {
    exists i | 0 <= i < |expenses| :: expenses[i].id == id
  }

  /** No two records share an id. */
  ghost predicate UniqueIds(expenses: seq<Expense>) {
    forall i, j | 0 <= i < j < |expenses| :: expenses[i].id != expenses[j].id
  }

  /** Appends `e`; no check is made that its id is new. */
  function AddExpense(expenses: seq<Expense>, e: Expense): (r: seq<Expense>)
    ensures |r| == |expenses| + 1
    ensures r[..|expenses|] == expenses && r[|expenses|] == e
  {
    expenses + [e]
  }

  /** Replaces every record whose id is `e.id` by `e`, leaving the others as they were. */
  function UpdateExpense(expenses: seq<Expense>, e: Expense): (r: seq<Expense>)
    ensures |r| == |expenses|
    ensures forall i | 0 <= i < |r| :: r[i] == (if expenses[i].id == e.id then e else expenses[i])
    decreases |expenses|
  {
    if expenses == [] then []
    else [if expenses[0].id == e.id then e else expenses[0]] + UpdateExpense(expenses[1..], e)
  }

  /** Drops every record whose id is `id`, keeping the rest in order. */
  function DeleteExpense(expenses: seq<Expense>, id: string): (r: seq<Expense>)
    ensures |r| <= |expenses|
    ensures forall x | x in r :: x in expenses && x.id != id
    ensures forall x | x in expenses && x.id != id :: x in r
    ensures !HasId(r, id)
    decreases |expenses|
  {
    if expenses == [] then []
    else (if expenses[0].id == id then [] else [expenses[0]]) + DeleteExpense(expenses[1..], id)
  }

  /** Deleting distributes over concatenation, which is what keeping the relative order means. */
  lemma {:induction false} DeleteKeepsOrder(a: seq<Expense>, b: seq<Expense>, id: string)
    ensures DeleteExpense(a + b, id) == DeleteExpense(a, id) + DeleteExpense(b, id)
    decreases |a|
  {
    if a == [] {
      assert a + b == b;
    } else {
      var head := if a[0].id == id then [] else [a[0]];
      assert (a + b)[0] == a[0];
      assert (a + b)[1..] == a[1..] + b;
      assert DeleteExpense(a + b, id) == head + DeleteExpense(a[1..] + b, id);
      DeleteKeepsOrder(a[1..], b, id);
      ConcatAssoc(head, DeleteExpense(a[1..], id), DeleteExpense(b, id));
    }
  }

  /** Deleting an id no record has changes nothing. */
  lemma {:induction false} DeleteAbsentIsNoOp(expenses: seq<Expense>, id: string)
    requires !HasId(expenses, id)
    ensures DeleteExpense(expenses, id) == expenses
    decreases |expenses|
  {
    if expenses != [] {
      assert !HasId(expenses[1..], id) by {
        forall i | 0 <= i < |expenses| - 1 ensures expenses[1..][i].id != id {
          assert expenses[1..][i] == expenses[i + 1];
        }
      }
      DeleteAbsentIsNoOp(expenses[1..], id);
      assert expenses[0].id != id;
    }
  }

  /** Deleting twice is deleting once. */
  lemma DeleteIdempotent(expenses: seq<Expense>, id: string)
    ensures DeleteExpense(DeleteExpense(expenses, id), id) == DeleteExpense(expenses, id)
  {
    DeleteAbsentIsNoOp(DeleteExpense(expenses, id), id);
  }

  /** Updating with an id no record has changes nothing: there is no not-found error. */
  lemma UpdateAbsentIsNoOp(expenses: seq<Expense>, e: Expense)
    requires !HasId(expenses, e.id)
    ensures UpdateExpense(expenses, e) == expenses
  {
  }

  /** Updating twice with the same record is updating once. */
  lemma UpdateIdempotent(expenses: seq<Expense>, e: Expense)
    ensures UpdateExpense(UpdateExpense(expenses, e), e) == UpdateExpense(expenses, e)
  {
  }

  /** An update keeps every record's id in place, so it keeps the ids unique if they were. */
  lemma UpdateKeepsIds(expenses: seq<Expense>, e: Expense)
    ensures forall i | 0 <= i < |expenses| :: UpdateExpense(expenses, e)[i].id == expenses[i].id
    ensures UniqueIds(expenses) ==> UniqueIds(UpdateExpense(expenses, e))
  {
  }

  /** Adding keeps the ids unique exactly when the new id is not already taken. */
  lemma AddUniqueIff(expenses: seq<Expense>, e: Expense)
    requires UniqueIds(expenses)
    ensures UniqueIds(AddExpense(expenses, e)) <==> !HasId(expenses, e.id)
  {
    var r := AddExpense(expenses, e);
    if HasId(expenses, e.id) {
      var i :| 0 <= i < |expenses| && expenses[i].id == e.id;
      assert r[i].id == r[|expenses|].id;
    }
  }

  /** Deleting the id of a record just added undoes the add for that id. */
  lemma DeleteUndoesAdd(expenses: seq<Expense>, e: Expense)
    ensures DeleteExpense(AddExpense(expenses, e), e.id) == DeleteExpense(expenses, e.id)
  {
    DeleteKeepsOrder(expenses, [e], e.id);
    assert DeleteExpense([e], e.id) == [];
  }

  /** Adding a record adds its amount to the total. */
  lemma AddRaisesTotal(expenses: seq<Expense>, e: Expense)
    ensures Total(AddExpense(expenses, e)) == Total(expenses) + e.amount
  {
    assert AddExpense(expenses, e)[..|expenses|] == expenses;
  }

  // ---------------------------------------------------------------------------
  // Page state

  datatype Tab = SummaryTab | HistoryTab | AddTab

  /** The page's state together with the storage slot it writes to. */
  datatype IndexState = IndexState(
    expenses: seq<Expense>,
    expenseToEdit: Option<Expense>,
    activeTab: Tab,
    storage: Storage)

  /** The saved snapshot is the list in memory. */
  predicate Synced(st: IndexState) {
    LoadExpenses(st.storage) == st.expenses
  }

  /** The first render: no records yet, nothing being edited, the summary tab. */
  function Mount(storage: Storage): (st: IndexState)
    ensures st.expenses == [] && st.expenseToEdit == None && st.activeTab == SummaryTab
    ensures st.storage == storage
  {
    IndexState([], None, SummaryTab, storage)
  }

  /** The effect that runs once after mounting: the list becomes the loaded snapshot. */
  function LoadSaved(st: IndexState): (r: IndexState)
    ensures Synced(r)
    ensures r.storage.slot.None? ==> r.expenses == []
    ensures r == st.(expenses := r.expenses)
  {
    st.(expenses := LoadExpenses(st.storage))
  }

  /** Sets the new list and saves it. */
  function Commit(st: IndexState, expenses: seq<Expense>): (r: IndexState)
    ensures Synced(r) && r.expenses == expenses
    ensures r.expenseToEdit == st.expenseToEdit && r.activeTab == st.activeTab
  {
    st.(expenses := expenses, storage := SaveExpenses(expenses))
  }

  /**
   * A submitted record: while editing, it replaces the records with its id
   * and editing ends; otherwise it is appended. Either way the list is saved
   * and the history tab is shown.
   */
  function HandleExpenseSubmit(st: IndexState, data: Expense): (r: IndexState)
    ensures Synced(r) && r.activeTab == HistoryTab && r.expenseToEdit == None
    ensures st.expenseToEdit.None? ==> r.expenses == AddExpense(st.expenses, data)
    ensures st.expenseToEdit.Some? ==> r.expenses == UpdateExpense(st.expenses, data)
  {
    if st.expenseToEdit.Some? then
      Commit(st, UpdateExpense(st.expenses, data)).(expenseToEdit := None, activeTab := HistoryTab)
    else
      Commit(st, AddExpense(st.expenses, data)).(activeTab := HistoryTab)
  }

  /** Choosing edit on a record: it becomes the edit target and the form tab is shown. */
  function HandleEditExpense(st: IndexState, e: Expense): (r: IndexState)
    ensures r.expenseToEdit == Some(e) && r.activeTab == AddTab
    ensures r.expenses == st.expenses && r.storage == st.storage
  {
    st.(expenseToEdit := Some(e), activeTab := AddTab)
  }

  /** Deleting by id: the records with that id go, the list is saved; the tab and edit target stay. */
  function HandleDeleteExpense(st: IndexState, id: string): (r: IndexState)
    ensures Synced(r) && r.expenses == DeleteExpense(st.expenses, id)
    ensures r.expenseToEdit == st.expenseToEdit && r.activeTab == st.activeTab
  {
    Commit(st, DeleteExpense(st.expenses, id))
  }

  /** The "Add Expense" button, shown on every tab but the form's: clears the edit target, then shows the form. */
  function StartAdding(st: IndexState): (r: IndexState)
    requires st.activeTab != AddTab
    ensures r.expenseToEdit == None && r.activeTab == AddTab
    ensures r.expenses == st.expenses && r.storage == st.storage
  {
    st.(expenseToEdit := None, activeTab := AddTab)
  }

  /** The form's cancel button, offered only while editing: editing ends and the history tab is shown. */
  function CancelEdit(st: IndexState): (r: IndexState)
    requires st.expenseToEdit.Some?
    ensures r.expenseToEdit == None && r.activeTab == HistoryTab
    ensures r.expenses == st.expenses && r.storage == st.storage
  {
    st.(expenseToEdit := None, activeTab := HistoryTab)
  }

  /** Clicking a tab shows it and changes nothing else. */
  function SelectTab(st: IndexState, tab: Tab): (r: IndexState)
    ensures r.activeTab == tab
    ensures r.expenses == st.expenses && r.expenseToEdit == st.expenseToEdit && r.storage == st.storage
  {
    st.(activeTab := tab)
  }

  /** A user action on the page. */
  datatype Action =
    | Submit(data: Expense)
    | Edit(e: Expense)
    | Delete(id: string)
    | AddButton
    | Cancel
    | ChooseTab(tab: Tab)

  /** Applies an action; an action whose control is not on screen leaves the state as it is. */
  function Step(st: IndexState, a: Action): IndexState {
    match a
    case Submit(data) => HandleExpenseSubmit(st, data)
    case Edit(e) => HandleEditExpense(st, e)
    case Delete(id) => HandleDeleteExpense(st, id)
    case AddButton => if st.activeTab != AddTab then StartAdding(st) else st
    case Cancel => if st.expenseToEdit.Some? then CancelEdit(st) else st
    case ChooseTab(tab) => SelectTab(st, tab)
  }

  /** Runs a sequence of actions. */
  function Run(st: IndexState, actions: seq<Action>): IndexState
    decreases |actions|
  {
    if actions == [] then st else Run(Step(st, actions[0]), actions[1..])
  }

  /** Once the snapshot has been loaded, the saved snapshot equals the list after every action. */
  lemma {:induction false} RunKeepsSynced(st: IndexState, actions: seq<Action>)
    requires Synced(st)
    ensures Synced(Run(st, actions))
    decreases |actions|
  {
    if actions != [] {
      RunKeepsSynced(Step(st, actions[0]), actions[1..]);
    }
  }

  /** Starting up: mount, then load; the list is the saved snapshot and the summary tab is shown. */
  lemma StartUp(storage: Storage)
    ensures LoadSaved(Mount(storage)).expenses == LoadExpenses(storage)
    ensures LoadSaved(Mount(storage)).activeTab == SummaryTab
    ensures LoadSaved(Mount(storage)).expenseToEdit == None
    ensures Synced(LoadSaved(Mount(storage)))
  {
  }

  // ---------------------------------------------------------------------------
  // The page together with its form and list

  /** Every record is one the form could have submitted. */
  ghost predicate AllValid(expenses: seq<Expense>) {
    forall i | 0 <= i < |expenses| :: ExpenseForm.ValidRecord(expenses[i])
  }

  /**
   * A submit of the form, which edits the page's edit target when there is
   * one; a record it hands on goes to the page's submit handler.
   */
  function FormSubmit(page: IndexState, form: ExpenseForm.FormState, freshId: string, now: int)
    : (r: (IndexState, ExpenseForm.FormState))
    ensures r.1 == ExpenseForm.HandleSubmit(form, page.expenseToEdit, freshId, now).state
    ensures ExpenseForm.HandleSubmit(form, page.expenseToEdit, freshId, now).submitted.None? ==> r.0 == page
    ensures ExpenseForm.HandleSubmit(form, page.expenseToEdit, freshId, now).submitted.Some? ==>
              Synced(r.0) && r.0.activeTab == HistoryTab && r.0.expenseToEdit == None
  {
    var result := ExpenseForm.HandleSubmit(form, page.expenseToEdit, freshId, now);
    match result.submitted
    case Some(e) => (HandleExpenseSubmit(page, e), result.state)
    case None => (page, result.state)
  }

  /** Only valid records enter the ledger through the form, and deleting keeps it that way. */
  lemma FormKeepsLedgerValid(page: IndexState, form: ExpenseForm.FormState, freshId: string, now: int, id: string)
    requires AllValid(page.expenses)
    ensures AllValid(FormSubmit(page, form, freshId, now).0.expenses)
    ensures AllValid(HandleDeleteExpense(page, id).expenses)
  {
    var result := ExpenseForm.HandleSubmit(form, page.expenseToEdit, freshId, now);
    if result.submitted.Some? {
      var e := result.submitted.value;
      var es := FormSubmit(page, form, freshId, now).0.expenses;
      forall i | 0 <= i < |es| ensures ExpenseForm.ValidRecord(es[i]) {
        if page.expenseToEdit.None? {
          assert es == page.expenses + [e];
          if i < |page.expenses| {
            assert es[i] == page.expenses[i];
          }
        }
      }
    }
    var kept := DeleteExpense(page.expenses, id);
    forall i | 0 <= i < |kept| ensures ExpenseForm.ValidRecord(kept[i]) {
      assert kept[i] in page.expenses;
    }
  }

  /**
   * Editing a record and submitting a valid form replaces that record (and
   * any other with its id) by the form's record, in place, and ends editing.
   */
  lemma EditReplacesRecord(page: IndexState, target: Expense, form: ExpenseForm.FormState, freshId: string, now: int)
    requires page.expenseToEdit == Some(target)
    requires ExpenseForm.ValidateForm(form.fields) == {}
    ensures var e := ExpenseForm.HandleSubmit(form, Some(target), freshId, now).submitted.value;
            var after := FormSubmit(page, form, freshId, now).0;
            && e.id == target.id
            && |after.expenses| == |page.expenses|
            && (forall i | 0 <= i < |after.expenses| ::
                  after.expenses[i] == (if page.expenses[i].id == target.id then e else page.expenses[i]))
            && after.expenseToEdit == None
            && (target in page.expenses ==> e in after.expenses)
  {
    var result := ExpenseForm.HandleSubmit(form, Some(target), freshId, now);
    assert result.submitted.Some?;
    var e := result.submitted.value;
    var after := FormSubmit(page, form, freshId, now).0;
    assert after == HandleExpenseSubmit(page, e);
    assert after.expenses == UpdateExpense(page.expenses, e);
    if target in page.expenses {
      var i :| 0 <= i < |page.expenses| && page.expenses[i] == target;
      assert after.expenses[i] == e;
    }
  }

  /**
   * Submitting valid fields with nothing being edited appends the new record,
   * under the fresh id, to the end of the list; the form is reset, the history
   * tab is shown and the snapshot is saved.
   */
  lemma AddAppendsRecord(page: IndexState, form: ExpenseForm.FormState, freshId: string, now: int)
    requires page.expenseToEdit == None
    requires ExpenseForm.ValidateForm(form.fields) == {}
    ensures var e := ExpenseForm.HandleSubmit(form, None, freshId, now).submitted.value;
            var r := FormSubmit(page, form, freshId, now);
            && e.id == freshId
            && Some(e.amount) == form.fields.amount
            && e.payeeName == form.fields.payeeName
            && r.0.expenses == page.expenses + [e]
            && r.1.fields == ExpenseForm.DefaultFields(now)
            && r.0.activeTab == HistoryTab
            && r.0.expenseToEdit == None
            && Synced(r.0)
  {
    var result := ExpenseForm.HandleSubmit(form, None, freshId, now);
    assert result.submitted.Some?;
    var e := result.submitted.value;
    var after := FormSubmit(page, form, freshId, now).0;
    assert after == HandleExpenseSubmit(page, e);
    assert after.expenses == AddExpense(page.expenses, e);
  }

  /** A confirmed delete in the list reaches the page's delete handler. */
  function ListConfirm(page: IndexState, dialog: ExpenseList.DeleteState): (r: (IndexState, ExpenseList.DeleteState))
    ensures r.1 == ExpenseList.ConfirmDelete(dialog).state
    ensures ExpenseList.ConfirmDelete(dialog).deleted.None? ==> r.0 == page
  {
    var result := ExpenseList.ConfirmDelete(dialog);
    match result.deleted
    case Some(id) => (HandleDeleteExpense(page, id), result.state)
    case None => (page, result.state)
  }

  /**
   * Clicking delete on a listed record and confirming removes exactly the
   * records sharing its id from the ledger and from storage, when its id is
   * not empty; with an empty id the click has no effect on the ledger.
   */
  lemma ClickAndConfirmDeletes(page: IndexState, dialog: ExpenseList.DeleteState, e: Expense)
    requires Synced(page)
    ensures var after := ListConfirm(page, ExpenseList.DeleteClick(dialog, e.id)).0;
            && Synced(after)
            && (e.id != "" ==> after.expenses == DeleteExpense(page.expenses, e.id) && !HasId(after.expenses, e.id))
            && (e.id == "" ==> after == page)
  {
  }
}
