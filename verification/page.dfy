/**
 The whole interactive state of the page and the events that drive it. A
 control that is not on screen cannot fire: events for the reservation inputs
 only act while the modal is shown, and events for the chat text box only while
 the chat window is shown; otherwise the page is left as it was.
 */
module Page {
  import opened Text
  import opened Chat
  import opened Booking

  datatype Page = Page(booking: BookingState, chatOpen: bool, chat: ChatState)

  /** Modal closed, chat closed, empty draft, the welcome message alone. */
  const InitialPage: Page := Page(InitialBooking, false, InitialChat)

  datatype Event =
    | OpenBooking                // "Reserve Table" / "Book Your Experience"
    | CloseBooking               // the modal's close button
    | EditBooking(edit: Edit)    // a change event on one reservation input
    | ConfirmBooking             // "Confirm Reservation"
    | ToggleChat                 // the floating chat button
    | CloseChat                  // the chat window's close button
    | TypeMessage(text: string)  // a change event on the chat text box
    | PressKey(key: string)      // a key press in the chat text box
    | ClickSend                  // the "Send" button

  /** The alert a step shows, if any. */
  datatype Alert = NoAlert | Shown(outcome: Outcome)

  datatype Transition = Transition(page: Page, alert: Alert)

  predicate IsBookingEvent(e: Event) {
    e.CloseBooking? || e.EditBooking? || e.ConfirmBooking?
  }

  predicate IsChatEvent(e: Event) {
    e.CloseChat? || e.TypeMessage? || e.PressKey? || e.ClickSend?
  }

  /** The control behind `e` is rendered. */
  predicate Enabled(p: Page, e: Event) {
    if IsBookingEvent(e) then p.booking.open
    else if IsChatEvent(e) then p.chatOpen
    else true
  }

  /** A reservation event, applied to the reservation state. The two open
      buttons and the close button only change the modal flag; a change event
      runs that input's handler on the draft; the confirm button runs the
      confirm handler and shows its alert. */
  function BookingStep(st: BookingState, e: Event): (r: (BookingState, Alert))
    requires e.OpenBooking? || IsBookingEvent(e)
    ensures r.1 != NoAlert <==> e.ConfirmBooking?
    ensures e.OpenBooking? ==> r.0.open && r.0.draft == st.draft
    ensures e.CloseBooking? ==> !r.0.open && r.0.draft == st.draft
    ensures e.EditBooking? ==>
      r.0.open == st.open && r.0.draft == SetField(st.draft, e.edit.field, e.edit.value)
    ensures e.ConfirmBooking? ==>
      r.0 == Submit(st).state && r.1 == Shown(Submit(st).outcome)
  {
    match e
    case OpenBooking => (OpenModal(st), NoAlert)
    case CloseBooking => (CloseModal(st), NoAlert)
    case EditBooking(ed) => (st.(draft := SetField(st.draft, ed.field, ed.value)), NoAlert)
    case ConfirmBooking =>
      var r := Submit(st);
      (r.state, Shown(r.outcome))
  }

  /** A chat event, applied to the chat window's visibility and contents. The
      floating button flips the window, the close button hides it, and the text
      box's change, key-press and Send handlers act on the chat state while the
      window stays as it is. */
  function ChatStep(open: bool, st: ChatState, e: Event): (r: (bool, ChatState))
    requires e.ToggleChat? || IsChatEvent(e)
    ensures e.ToggleChat? ==> r == (!open, st)
    ensures e.CloseChat? ==> r == (false, st)
    ensures e.TypeMessage? ==> r.0 == open && r.1.messages == st.messages && r.1.input == e.text
    ensures e.PressKey? ==> r.0 == open && r.1 == KeyPress(st, e.key)
    ensures e.ClickSend? ==> r.0 == open && r.1 == Send(st)
  {
    match e
    case ToggleChat => (!open, st)
    case CloseChat => (false, st)
    case TypeMessage(text) => (open, EditInput(st, text))
    case PressKey(key) => (open, KeyPress(st, key))
    case ClickSend => (open, Send(st))
  }

  /** One event. Reservation events touch only the reservation state, chat
      events only the chat; only the confirm button raises an alert. */
  function Step(p: Page, e: Event): (t: Transition)
    ensures !Enabled(p, e) ==> t == Transition(p, NoAlert)
    ensures IsBookingEvent(e) || e.OpenBooking? ==> t.page.chat == p.chat && t.page.chatOpen == p.chatOpen
    ensures IsChatEvent(e) || e.ToggleChat? ==> t.page.booking == p.booking
    ensures t.alert != NoAlert <==> Enabled(p, e) && e.ConfirmBooking?
  {
    if !Enabled(p, e) then
      Transition(p, NoAlert)
    else if e.OpenBooking? || IsBookingEvent(e) then
      var (b, a) := BookingStep(p.booking, e);
      Transition(p.(booking := b), a)
    else
      var (open, c) := ChatStep(p.chatOpen, p.chat, e);
      Transition(p.(chatOpen := open, chat := c), NoAlert)
  }

  /** The page after a series of events. */
  function Run(p: Page, events: seq<Event>): Page
    decreases |events|
  {
    if events == [] then p else Run(Step(p, events[0]).page, events[1..])
  }

  /** The text `e` sends to the chat, if it sends one: an enabled Send click or
      Enter key with a text box that is not whitespace only. */
  function SentBy(p: Page, e: Event): seq<string> {
    if Enabled(p, e) && (e == ClickSend || e == PressKey("Enter")) && !AllWhitespace(p.chat.input)
    then [p.chat.input]
    else []
  }

  /** All texts a series of events sends, in order. */
  function SentDuring(p: Page, events: seq<Event>): seq<string>
    decreases |events|
  {
    if events == [] then []
    else SentBy(p, events[0]) + SentDuring(Step(p, events[0]).page, events[1..])
  }

  /** One step appends to the transcript exactly the exchange for the text it
      sends. */
  lemma LemmaStepTranscript(p: Page, e: Event, sent: seq<string>)
    ensures p.chat.messages == TranscriptOf(sent) ==>
      Step(p, e).page.chat.messages == TranscriptOf(sent + SentBy(p, e))
  {
    if p.chat.messages == TranscriptOf(sent) && Enabled(p, e) && (e == ClickSend || e == PressKey("Enter")) {
      LemmaSendExtendsTranscript(p.chat, sent);
    }
    assert sent + [] == sent;
  }

  /** Over any series of events the transcript is the welcome message followed
      by one exchange per text actually sent, in sending order; earlier
      messages are never altered or removed. */
  lemma {:induction false} LemmaRunTranscript(p: Page, events: seq<Event>, sent: seq<string>)
    requires p.chat.messages == TranscriptOf(sent)
    ensures Run(p, events).chat.messages == TranscriptOf(sent + SentDuring(p, events))
    decreases |events|
  {
    if events == [] {
      assert sent + SentDuring(p, events) == sent;
    } else {
      var q := Step(p, events[0]).page;
      var a, b := SentBy(p, events[0]), SentDuring(q, events[1..]);
      var mid := sent + a;
      LemmaRunUnfold(p, events);
      LemmaStepTranscript(p, events[0], sent);
      LemmaRunTranscript(q, events[1..], mid);
      LemmaAppendAssoc(sent, a, b);
    }
  }

  lemma LemmaAppendAssoc<T>(x: seq<T>, y: seq<T>, z: seq<T>)
    ensures (x + y) + z == x + (y + z)
  {
  }

  lemma LemmaRunUnfold(p: Page, events: seq<Event>)
    requires events != []
    ensures Run(p, events) == Run(Step(p, events[0]).page, events[1..])
    ensures SentDuring(p, events)
            == SentBy(p, events[0]) + SentDuring(Step(p, events[0]).page, events[1..])
  {
  }

  /** Every sent text is a non-blank one. */
  lemma {:induction false} LemmaSentAreSendable(p: Page, events: seq<Event>)
    ensures AllSendable(SentDuring(p, events))
    decreases |events|
  {
    if events != [] {
      var q := Step(p, events[0]).page;
      LemmaSentAreSendable(q, events[1..]);
      var a, b := SentBy(p, events[0]), SentDuring(q, events[1..]);
      forall j | 0 <= j < |a + b|
        ensures !AllWhitespace((a + b)[j])
      {
        if j >= |a| {
          assert (a + b)[j] == b[j - |a|];
        }
      }
    }
  }

  /** From the freshly loaded page, the transcript is always built from the
      sent texts alone, and each of them is sendable. */
  lemma LemmaTranscriptFromStart(events: seq<Event>)
    ensures Run(InitialPage, events).chat.messages == TranscriptOf(SentDuring(InitialPage, events))
    ensures AllSendable(SentDuring(InitialPage, events))
  {
    LemmaInitialTranscript();
    LemmaRunTranscript(InitialPage, events, []);
    assert [] + SentDuring(InitialPage, events) == SentDuring(InitialPage, events);
    LemmaSentAreSendable(InitialPage, events);
  }

  /** One event never alters or removes a message already shown. */
  lemma LemmaStepAppendOnly(p: Page, e: Event)
    ensures p.chat.messages <= Step(p, e).page.chat.messages
  {
  }

  /** The transcript only grows: the messages before a series of events are a
      prefix of the messages after it. */
  lemma {:induction false} LemmaTranscriptAppendOnly(p: Page, events: seq<Event>)
    ensures p.chat.messages <= Run(p, events).chat.messages
    decreases |events|
  {
    if events != [] {
      var q := Step(p, events[0]).page;
      LemmaStepAppendOnly(p, events[0]);
      LemmaTranscriptAppendOnly(q, events[1..]);
    }
  }

  /** Closing the modal and opening it again brings back the draft as it was
      typed: closing does not discard it. */
  lemma LemmaCloseReopenKeepsDraft(p: Page)
    requires p.booking.open
    ensures Run(p, [CloseBooking, OpenBooking]).booking == p.booking
    ensures Run(p, [CloseBooking, OpenBooking]).chat == p.chat
  {
    var q := Step(p, CloseBooking).page;
    assert Run(p, [CloseBooking, OpenBooking]) == Run(q, [OpenBooking]);
    assert Run(q, [OpenBooking]) == Step(q, OpenBooking).page;
  }

  /** The floating chat button is its own inverse. */
  lemma LemmaToggleChatTwice(p: Page)
    ensures Run(p, [ToggleChat, ToggleChat]) == p
  {
    var q := Step(p, ToggleChat).page;
    assert Run(p, [ToggleChat, ToggleChat]) == Run(q, [ToggleChat]);
    assert Run(q, [ToggleChat]) == Step(q, ToggleChat).page;
  }

  /** The confirm button on the page: with the modal shown, it reports a
      confirmed reservation exactly when all six fields are filled in, and then
      leaves the reservation state as on a fresh page; otherwise it reports the
      missing fields and the page stays as it was. */
  lemma LemmaConfirmOnPage(p: Page)
    requires p.booking.open
    ensures Step(p, ConfirmBooking).alert == Shown(Confirmed) <==> Complete(p.booking.draft)
    ensures Complete(p.booking.draft) ==>
      Step(p, ConfirmBooking).page == p.(booking := InitialBooking)
    ensures !Complete(p.booking.draft) ==>
      Step(p, ConfirmBooking) == Transition(p, Shown(MissingFields))
  {
    if Complete(p.booking.draft) {
      LemmaConfirmResets(p.booking);
    }
  }

  /** The page events for a series of reservation-input changes. */
  function EditEvents(edits: seq<Edit>): (es: seq<Event>)
    ensures |es| == |edits|
    ensures forall i :: 0 <= i < |edits| ==> es[i] == EditBooking(edits[i])
  {
    seq(|edits|, i requires 0 <= i < |edits| => EditBooking(edits[i]))
  }

  /** Typing into the reservation inputs while the modal is shown changes the
      draft exactly as the change handlers do, one after another, and nothing
      else on the page. */
  lemma {:induction false} LemmaRunEdits(p: Page, edits: seq<Edit>)
    requires p.booking.open
    ensures Run(p, EditEvents(edits))
            == p.(booking := p.booking.(draft := ApplyEdits(p.booking.draft, edits)))
    decreases |edits|
  {
    var es := EditEvents(edits);
    if edits != [] {
      var q := Step(p, es[0]).page;
      assert q == p.(booking := p.booking.(draft := SetField(p.booking.draft, edits[0].field, edits[0].value)));
      assert es[1..] == EditEvents(edits[1..]);
      LemmaRunEdits(q, edits[1..]);
    }
  }

  /** Filling in the form and pressing confirm: the reservation is confirmed
      exactly when the edited draft has all six fields filled in, and then the
      reservation state is that of a fresh page. */
  lemma LemmaFillAndConfirm(p: Page, edits: seq<Edit>)
    requires p.booking.open
    ensures var q := Run(p, EditEvents(edits));
      && (Step(q, ConfirmBooking).alert == Shown(Confirmed)
          <==> Complete(ApplyEdits(p.booking.draft, edits)))
      && (Complete(ApplyEdits(p.booking.draft, edits)) ==>
            Step(q, ConfirmBooking).page.booking == InitialBooking)
      && Step(q, ConfirmBooking).page.chat == p.chat
  {
    LemmaRunEdits(p, edits);
    LemmaConfirmOnPage(Run(p, EditEvents(edits)));
  }
}
