/**
 * The history list: records shown newest first, and the pending-delete
 * state behind the confirmation dialog.
 */
module ExpenseList {
  import opened Wrappers
  import opened Types
  import opened Sorting

  /** The sort key of the list: the record's instant. */
  function DateKey(e: Expense): real {
    e.date as real
  }

  /**
   * The records ordered by date, newest first, on a copy of the list: a
   * permutation of the input whose dates never increase.
   */
  function SortedExpenses(expenses: seq<Expense>): (r: seq<Expense>)
    ensures |r| == |expenses| && multiset(r) == multiset(expenses)
    ensures forall i, j | 0 <= i < j < |r| :: r[i].date >= r[j].date
  {
    var r := SortDesc(expenses, DateKey);
    assert forall i, j | 0 <= i < j < |r| :: DateKey(r[i]) >= DateKey(r[j]);
    r
  }

  /** The records dated `date`, in the order they appear in `s`. */
  function OnDate(s: seq<Expense>, date: int): seq<Expense> {
    WithKey(s, DateKey, date as real)
  }

  /** Records sharing a date appear in the list in their ledger order. */
  lemma SortedExpensesStable(expenses: seq<Expense>, date: int)
    ensures OnDate(SortedExpenses(expenses), date) == OnDate(expenses, date)
  {
    SortDescStable(expenses, DateKey, date as real);
  }

  /**
   * The ordering is determined: any arrangement that is newest first and
   * keeps each date's records in ledger order is the list's ordering.
   */
  lemma SortedExpensesUnique(expenses: seq<Expense>, t: seq<Expense>)
    requires forall i, j | 0 <= i < j < |t| :: t[i].date >= t[j].date
    requires forall d: int :: OnDate(t, d) == OnDate(expenses, d)
    ensures t == SortedExpenses(expenses)
  {
    assert NonIncreasing(t, DateKey) by {
      forall i, j | 0 <= i < j < |t| ensures DateKey(t[i]) >= DateKey(t[j]) {
      }
    }
    forall k: real ensures WithKey(t, DateKey, k) == WithKey(expenses, DateKey, k) {
      if k != k.Floor as real {
        NoRecordAtFractionalKey(t, k);
        NoRecordAtFractionalKey(expenses, k);
      } else {
        assert OnDate(t, k.Floor) == OnDate(expenses, k.Floor);
      }
    }
    StableSortUnique(expenses, t, DateKey);
  }

  /** No record's date key is a fraction. */
  lemma {:induction false} NoRecordAtFractionalKey(s: seq<Expense>, k: real)
    requires k != k.Floor as real
    ensures WithKey(s, DateKey, k) == []
  {
    forall i | 0 <= i < |s| ensures DateKey(s[i]) != k {
    }
    if s != [] {
      NoRecordAtFractionalKey(s[1..], k);
    }
  }

  // ---------------------------------------------------------------------------
  // Delete confirmation

  /** The id awaiting confirmation, if any, and whether the dialog is open. */
  datatype DeleteState = DeleteState(pending: Option<string>, dialogOpen: bool)

  const NoPendingDelete := DeleteState(None, false)

  /** Clicking delete on a row remembers its id and opens the dialog. */
  function DeleteClick(st: DeleteState, id: string): (r: DeleteState)
    ensures r.pending == Some(id) && r.dialogOpen
  {
    DeleteState(Some(id), true)
  }

  /** The dialog's state after confirming, and the id handed to the page, if any. */
  datatype ConfirmResult = ConfirmResult(state: DeleteState, deleted: Option<string>)

  /**
   * Confirming hands on the pending id when there is one (an empty id counts
   * as none), then closes the dialog and forgets the id; otherwise nothing
   * happens.
   */
  function ConfirmDelete(st: DeleteState): (r: ConfirmResult)
    ensures r.deleted.Some? <==> st.pending.Some? && st.pending.value != ""
    ensures r.deleted.Some? ==> r.deleted == st.pending && r.state == NoPendingDelete
    ensures r.deleted.None? ==> r.state == st
  {
    match st.pending
    case Some(id) =>
      if id != "" then ConfirmResult(NoPendingDelete, Some(id)) else ConfirmResult(st, None)
    case None => ConfirmResult(st, None)
  }

  /** Cancelling, or dismissing the dialog, closes it but keeps the pending id. */
  function DismissDialog(st: DeleteState): (r: DeleteState)
    ensures !r.dialogOpen && r.pending == st.pending
  {
    st.(dialogOpen := false)
  }

  /** A click followed by a confirmation deletes exactly the clicked id, whatever was pending before. */
  lemma ClickThenConfirm(st: DeleteState, id: string)
    requires id != ""
    ensures ConfirmDelete(DeleteClick(st, id)).deleted == Some(id)
    ensures ConfirmDelete(DeleteClick(st, id)).state == NoPendingDelete
  {
  }

  /** A confirmation never hands on the same id twice. */
  lemma ConfirmTwiceDeletesOnce(st: DeleteState)
    ensures ConfirmDelete(ConfirmDelete(st).state).deleted.Some? ==> ConfirmDelete(st).deleted.None?
  {
  }
}
