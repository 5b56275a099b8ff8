/**
 The reservation modal: a six-field draft edited one field at a time, and the
 confirm button, which either accepts a fully filled draft (clearing it and
 closing the modal) or rejects it and changes nothing. The two browser alerts
 become the returned `Outcome`.
 */
module Booking {

  /** The six inputs of the form, in the order they are shown. */
  datatype Field = Name | Email | Phone | Date | Time | Guests

  /** The draft as typed so far; every field is free text. */
  datatype Draft = Draft(name: string, email: string, phone: string,
                         date: string, time: string, guests: string)

  /** The draft the page starts with and returns to after a confirmed booking. */
  const EmptyDraft: Draft := Draft("", "", "", "", "", "")

  /** The reservation part of the page: the draft and whether the modal is open. */
  datatype BookingState = BookingState(draft: Draft, open: bool)

  const InitialBooking: BookingState := BookingState(EmptyDraft, false)

  /** Which alert the confirm button shows. */
  datatype Outcome = Confirmed | MissingFields

  datatype SubmitResult = SubmitResult(outcome: Outcome, state: BookingState)

  function Get(d: Draft, f: Field): string {
    match f
    case Name => d.name
    case Email => d.email
    case Phone => d.phone
    case Date => d.date
    case Time => d.time
    case Guests => d.guests
  }

  /** An input's change handler: copy the draft with one field replaced. */
  function SetField(d: Draft, f: Field, value: string): (r: Draft)
    ensures Get(r, f) == value
    ensures forall g :: g != f ==> Get(r, g) == Get(d, g)
  {
    match f
    case Name => d.(name := value)
    case Email => d.(email := value)
    case Phone => d.(phone := value)
    case Date => d.(date := value)
    case Time => d.(time := value)
    case Guests => d.(guests := value)
  }

  /** Two drafts agreeing on every field are the same draft. */
  lemma LemmaDraftExtensional(d: Draft, e: Draft)
    requires forall f :: Get(d, f) == Get(e, f)
    ensures d == e
  {
    assert Get(d, Name) == Get(e, Name) && Get(d, Email) == Get(e, Email);
    assert Get(d, Phone) == Get(e, Phone) && Get(d, Date) == Get(e, Date);
    assert Get(d, Time) == Get(e, Time) && Get(d, Guests) == Get(e, Guests);
  }

  /** Every field holds a non-empty (truthy) string. */
  predicate Complete(d: Draft) {
    forall f :: Get(d, f) != []
  }

  /** The confirm handler. Success exactly when all six fields are non-empty:
      then every field is cleared and the modal closes. Otherwise neither the
      draft nor the modal flag changes. */
  function Submit(st: BookingState): (r: SubmitResult)
    ensures r.outcome == Confirmed <==> Complete(st.draft)
    ensures r.outcome == Confirmed ==>
      (forall f :: Get(r.state.draft, f) == []) && !r.state.open
    ensures r.outcome == MissingFields ==> r.state == st
  {
    var d := st.draft;
    if d.name != "" && d.email != "" && d.phone != "" && d.date != "" && d.time != "" && d.guests != "" then
      SubmitResult(Confirmed, BookingState(EmptyDraft, false))
    else
      assert !Complete(d) by {
        if d.name == "" { assert Get(d, Name) == []; }
        else if d.email == "" { assert Get(d, Email) == []; }
        else if d.phone == "" { assert Get(d, Phone) == []; }
        else if d.date == "" { assert Get(d, Date) == []; }
        else if d.time == "" { assert Get(d, Time) == []; }
        else { assert Get(d, Guests) == []; }
      }
      SubmitResult(MissingFields, st)
  }

  /** A confirmed booking leaves the initial reservation state behind. */
  lemma LemmaConfirmResets(st: BookingState)
    requires Submit(st).outcome == Confirmed
    ensures Submit(st).state == InitialBooking
  {
    LemmaDraftExtensional(Submit(st).state.draft, EmptyDraft);
  }

  /** There is no duplicate-submission guard, but none is needed: confirming
      again right after a confirmed booking fails, because the draft is empty. */
  lemma LemmaSecondSubmitFails(st: BookingState)
    requires Submit(st).outcome == Confirmed
    ensures Submit(Submit(st).state).outcome == MissingFields
    ensures Submit(Submit(st).state).state == Submit(st).state
  {
    assert Get(Submit(st).state.draft, Name) == [];
  }

  /** Clearing any one field makes the next confirm fail. */
  lemma LemmaOneEmptyFieldFails(d: Draft, f: Field, open: bool)
    ensures Submit(BookingState(SetField(d, f, ""), open)).outcome == MissingFields
  {
    assert Get(SetField(d, f, ""), f) == [];
  }

  /** One change event: the field it targets and the text now in the input. */
  datatype Edit = Edit(field: Field, value: string)

  /** A series of change events applied in order. */
  function ApplyEdits(d: Draft, edits: seq<Edit>): Draft
    decreases |edits|
  {
    if edits == [] then d
    else ApplyEdits(SetField(d, edits[0].field, edits[0].value), edits[1..])
  }

  /** After a series of edits, a field holds the value of the last edit that
      targeted it, or its old value if no edit did. */
  function LastValue(d: Draft, edits: seq<Edit>, f: Field): string
    decreases |edits|
  {
    if edits == [] then Get(d, f)
    else if edits[|edits| - 1].field == f then edits[|edits| - 1].value
    else LastValue(d, edits[..|edits| - 1], f)
  }

  lemma {:induction false} LemmaApplyEditsSnoc(d: Draft, edits: seq<Edit>, e: Edit)
    ensures ApplyEdits(d, edits + [e]) == SetField(ApplyEdits(d, edits), e.field, e.value)
    decreases |edits|
  {
    if edits != [] {
      var d' := SetField(d, edits[0].field, edits[0].value);
      assert (edits + [e])[1..] == edits[1..] + [e];
      LemmaApplyEditsSnoc(d', edits[1..], e);
    }
  }

  /** Edits are independent per field: each field ends up with its last edited
      value, whatever happened to the other fields in between. */
  lemma {:induction false} LemmaApplyEditsLastWins(d: Draft, edits: seq<Edit>, f: Field)
    ensures Get(ApplyEdits(d, edits), f) == LastValue(d, edits, f)
    decreases |edits|
  {
    if edits != [] {
      var prefix := edits[..|edits| - 1];
      var e := edits[|edits| - 1];
      assert edits == prefix + [e];
      LemmaApplyEditsSnoc(d, prefix, e);
      LemmaApplyEditsLastWins(d, prefix, f);
    }
  }

  /** Some edit in the series targets field `f`. */
  predicate Edited(edits: seq<Edit>, f: Field) {
    exists i :: 0 <= i < |edits| && edits[i].field == f
  }

  /** Filling every field with some non-empty text, in any order and with any
      corrections along the way, makes the next confirm succeed. */
  lemma LemmaFilledFormConfirms(d: Draft, edits: seq<Edit>, open: bool)
    requires forall i :: 0 <= i < |edits| ==> edits[i].value != []
    requires forall f :: Edited(edits, f)
    ensures Submit(BookingState(ApplyEdits(d, edits), open)).outcome == Confirmed
  {
    forall f
      ensures Get(ApplyEdits(d, edits), f) != []
    {
      LemmaApplyEditsLastWins(d, edits, f);
      LemmaLastValueNonEmpty(d, edits, f);
    }
  }

  lemma {:induction false} LemmaLastValueNonEmpty(d: Draft, edits: seq<Edit>, f: Field)
    requires forall i :: 0 <= i < |edits| ==> edits[i].value != []
    requires Edited(edits, f)
    ensures LastValue(d, edits, f) != []
    decreases |edits|
  {
    var last := |edits| - 1;
    if edits[last].field != f {
      var i :| 0 <= i < |edits| && edits[i].field == f;
      var prefix := edits[..last];
      assert prefix[i] == edits[i];
      LemmaLastValueNonEmpty(d, prefix, f);
    }
  }

  /** The close button hides the modal and keeps the draft as typed. */
  function CloseModal(st: BookingState): (r: BookingState)
    ensures !r.open && r.draft == st.draft
  {
    st.(open := false)
  }

  /** The two "book a table" buttons show the modal over the current draft. */
  function OpenModal(st: BookingState): (r: BookingState)
    ensures r.open && r.draft == st.draft
  {
    st.(open := true)
  }
}
