/**
 * The expense form: its fields and their defaults, the calendar's future-day
 * test, validation, and what a submission builds and hands to the page.
 */
module ExpenseForm {
  import opened Wrappers
  import opened Types
  import opened Text

  /**
   * The form's fields. `amount` is the number the amount text parses to:
   * `None` when the text is empty or not a number. `date` is an instant in
   * milliseconds since the epoch.
   */
  datatype Fields = Fields(
    amount: Option<real>,
    category: Category,
    date: int,
    paymentMode: PaymentMode,
    payeeName: string,
    notes: string)

  /** The fields that validation can flag. */
  datatype Field = AmountField | PayeeField

  datatype FormState = FormState(fields: Fields, errors: set<Field>)

  /** What validation demands of every record the form submits. */
  predicate ValidRecord(e: Expense) {
    e.amount > 0.0 && !IsBlank(e.payeeName)
  }

  // ---------------------------------------------------------------------------
  // Dates

  const MillisPerDay: int := 86_400_000

  /**
   * The first instant of the local day containing `t`, in a time zone
   * `offset` milliseconds ahead of UTC.
   */
  function StartOfDay(t: int, offset: int): (d: int)
    ensures d <= t < d + MillisPerDay
    ensures (d + offset) % MillisPerDay == 0
  {
    t - (t + offset) % MillisPerDay
  }

  /** The calendar greys out a date that lies after the start of today. */
  function IsFutureDate(date: int, now: int, offset: int): (future: bool)
    ensures date > now ==> future
    ensures date <= now - MillisPerDay ==> !future
  {
    date > StartOfDay(now, offset)
  }

  /** Today itself (its first instant) can be picked. */
  lemma TodayIsSelectable(now: int, offset: int)
    ensures !IsFutureDate(StartOfDay(now, offset), now, offset)
  {
  }

  /**
   * For a day as the calendar offers it (a local midnight), it is greyed out
   * exactly when it is a later day than today.
   */
  lemma CalendarDayIsFutureIff(day: int, now: int, offset: int)
    requires (day + offset) % MillisPerDay == 0
    ensures IsFutureDate(day, now, offset) <==> day >= StartOfDay(now, offset) + MillisPerDay
  {
  }

  // ---------------------------------------------------------------------------
  // Field defaults

  /**
   * The fields of a fresh form: no amount, food, the current instant, cash,
   * no payee, no notes. Submitted untouched, both checked fields are flagged.
   */
  function DefaultFields(now: int): (f: Fields)
    ensures f.amount == None && f.payeeName == ""
    ensures f.date == now && f.category == Food && f.paymentMode == Cash && f.notes == ""
    ensures ValidateForm(f) == {AmountField, PayeeField}
  {
    Fields(None, Food, now, Cash, "", "")
  }

  /** The fields shown for a record: its own values, with absent notes shown as empty text. */
  function FieldsOf(e: Expense): (f: Fields)
    ensures f.amount == Some(e.amount) && f.payeeName == e.payeeName
    ensures f.category == e.category && f.date == e.date && f.paymentMode == e.paymentMode
    ensures e.notes.Some? ==> f.notes == e.notes.value
    ensures e.notes.None? ==> f.notes == ""
  {
    Fields(Some(e.amount), e.category, e.date, e.paymentMode, e.payeeName, e.notes.GetOr(""))
  }

  /** The form's first fields: the edited record's, or the defaults. */
  function InitialState(edit: Option<Expense>, now: int): (st: FormState)
    ensures st.errors == {}
    ensures edit.None? ==> st.fields == DefaultFields(now)
    ensures edit.Some? ==> st.fields == FieldsOf(edit.value)
  {
    match edit
    case Some(e) => FormState(FieldsOf(e), {})
    case None => FormState(DefaultFields(now), {})
  }

  /**
   * When the edited record changes to a record, the fields are refilled from
   * it; when it changes to none, the fields are left as they are.
   */
  function EditTargetChanged(st: FormState, edit: Option<Expense>): (r: FormState)
    ensures r.errors == st.errors
    ensures edit.Some? ==> r.fields == FieldsOf(edit.value)
    ensures edit.None? ==> r == st
  {
    match edit
    case Some(e) => st.(fields := FieldsOf(e))
    case None => st
  }

  // ---------------------------------------------------------------------------
  // Validation and submission

  /**
   * The amount is flagged when it is missing, not a number or not positive;
   * the payee when it is blank. Both can be flagged at once.
   */
  function ValidateForm(f: Fields): (errors: set<Field>)
    ensures AmountField in errors <==> !(f.amount.Some? && f.amount.value > 0.0)
    ensures PayeeField in errors <==> IsBlank(f.payeeName)
    ensures errors <= {AmountField, PayeeField}
  {
    TrimEmptyIffBlank(f.payeeName);
    (if f.amount.None? || f.amount.value <= 0.0 then {AmountField} else {})
    + (if Trim(f.payeeName) == [] then {PayeeField} else {})
  }

  /** Notes are kept trimmed, or dropped when nothing but whitespace is left. */
  function NormalizeNotes(notes: string): (r: Option<string>)
    ensures r.None? <==> IsBlank(notes)
    ensures r.Some? ==> r.value == Trim(notes) && r.value != []
  {
    TrimEmptyIffBlank(notes);
    if Trim(notes) == [] then None else Some(Trim(notes))
  }

  /**
   * The record a valid form describes; its id is the edited record's, or
   * `freshId` for a new one. Opening it for editing shows the same fields,
   * except that the notes come back normalised.
   */
  function BuildExpense(f: Fields, edit: Option<Expense>, freshId: string): (e: Expense)
    requires f.amount.Some?
    ensures e.id == (if edit.Some? then edit.value.id else freshId)
    ensures FieldsOf(e) == f.(notes := FieldsOf(e).notes)
    ensures IsBlank(f.notes) ==> FieldsOf(e).notes == ""
    ensures !IsBlank(f.notes) ==> FieldsOf(e).notes == Trim(f.notes)
  {
    Expense(
      if edit.Some? then edit.value.id else freshId,
      f.amount.value,
      f.category,
      f.date,
      f.paymentMode,
      f.payeeName,
      NormalizeNotes(f.notes))
  }

  /** The form's state after a submission, and the record handed to the page, if any. */
  datatype SubmitResult = SubmitResult(state: FormState, submitted: Option<Expense>)

  /**
   * Submitting: the errors shown are the validation errors; a record is
   * handed on exactly when there are none, and it is valid, keeps the payee
   * as typed, carries the edited record's id when editing, and has its notes
   * normalised. A failed submission leaves the fields alone; after an add
   * they are reset, after an edit they are kept. `freshId` is the value the
   * id generator would return; `now` is the current instant.
   */
  function HandleSubmit(st: FormState, edit: Option<Expense>, freshId: string, now: int): (r: SubmitResult)
    ensures r.state.errors == ValidateForm(st.fields)
    ensures r.submitted.Some? <==> ValidateForm(st.fields) == {}
    ensures r.submitted.None? ==> r.state.fields == st.fields
    ensures r.submitted.Some? ==>
              && ValidRecord(r.submitted.value)
              && Some(r.submitted.value.amount) == st.fields.amount
              && r.submitted.value.payeeName == st.fields.payeeName
              && r.submitted.value.category == st.fields.category
              && r.submitted.value.date == st.fields.date
              && r.submitted.value.paymentMode == st.fields.paymentMode
              && r.submitted.value.id == (if edit.Some? then edit.value.id else freshId)
              && r.submitted.value.notes == NormalizeNotes(st.fields.notes)
    ensures r.submitted.Some? && edit.None? ==> r.state.fields == DefaultFields(now)
    ensures edit.Some? ==> r.state.fields == st.fields
  {
    var errors := ValidateForm(st.fields);
    if errors != {} then
      SubmitResult(FormState(st.fields, errors), None)
    else
      assert AmountField !in errors && PayeeField !in errors;
      var e := BuildExpense(st.fields, edit, freshId);
      var fields := if edit.None? then DefaultFields(now) else st.fields;
      SubmitResult(FormState(fields, errors), Some(e))
  }

  /**
   * Editing a record and submitting without changes hands back that very
   * record, provided its notes are absent or already trimmed and non-empty
   * (other notes come back normalised).
   */
  lemma EditRoundTrip(e: Expense, freshId: string, now: int)
    requires ValidRecord(e)
    requires e.notes.None? || (e.notes.value != [] && Trim(e.notes.value) == e.notes.value)
    ensures HandleSubmit(FormState(FieldsOf(e), {}), Some(e), freshId, now).submitted == Some(e)
  {
    var f := FieldsOf(e);
    TrimEmptyIffBlank(f.notes);
    if e.notes.None? {
      assert IsBlank(f.notes);
    }
    var r := HandleSubmit(FormState(f, {}), Some(e), freshId, now).submitted;
    assert r.Some?;
    assert r.value.notes == e.notes;
  }

  /** A submission from a form whose amount is flagged hands nothing on, whatever the payee. */
  lemma BadAmountBlocksSubmit(st: FormState, edit: Option<Expense>, freshId: string, now: int)
    requires st.fields.amount.None? || st.fields.amount.value <= 0.0
    ensures HandleSubmit(st, edit, freshId, now).submitted.None?
    ensures AmountField in HandleSubmit(st, edit, freshId, now).state.errors
  {
  }

  /**
   * The payee is stored as typed: whitespace around it survives, whereas the
   * same text typed as notes would be stored trimmed.
   */
  lemma PayeeStoredUntrimmed(st: FormState, edit: Option<Expense>, freshId: string, now: int)
    requires ValidateForm(st.fields) == {}
    requires st.fields.notes == st.fields.payeeName
    requires st.fields.payeeName != [] && IsWhitespace(st.fields.payeeName[0])
    ensures var r := HandleSubmit(st, edit, freshId, now);
            && r.submitted.Some?
            && r.submitted.value.payeeName == st.fields.payeeName
            && r.submitted.value.notes == Some(Trim(st.fields.payeeName))
            && r.submitted.value.notes != Some(st.fields.payeeName)
  {
    var p := st.fields.payeeName;
    TrimIsCore(p);
    assert Trim(p) != p;
  }

  /** One worked case: a payee of " Cafe " stays " Cafe ", notes of " tea " become "tea". */
  lemma PayeeStoredUntrimmedExample()
    ensures var st := FormState(Fields(Some(5.0), Food, 0, Cash, " Cafe ", " tea "), {});
            var r := HandleSubmit(st, None, "id", 0);
            && r.submitted.Some?
            && r.submitted.value.payeeName == " Cafe "
            && r.submitted.value.notes == Some("tea")
  {
    var notes := " tea ";
    assert SkipWhitespace(notes, 1) == 1 && SkipWhitespace(notes, 0) == 1;
    assert BackOverWhitespace(notes, 1, 4) == 4 && BackOverWhitespace(notes, 1, 5) == 4;
    assert Trim(notes) == notes[1..4] == "tea";
    assert !IsBlank(" Cafe ") by {
      assert !IsWhitespace(" Cafe "[1]);
    }
  }
}
