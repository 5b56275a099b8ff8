# Restoran page: chat assistant and reservation form

A Dafny model of the interactive core of the single-page restaurant site in
`LuxuryRestaurant.jsx`. That core has two widgets:

- **The chat assistant.** A visitor types a message and sends it with the Send button or the Enter key. A message that is empty or whitespace-only is ignored. Otherwise the message is appended to the transcript, and a canned reply follows. The reply is chosen by a first-match keyword test on the lower-cased message:
  - booking words come first;
  - then menu, then hours, then location;
  - then a fallback sentence.
- **The reservation modal.** It has six free-text fields, each edited independently. Confirming succeeds exactly when every field is non-empty. A successful confirm clears the form and closes the modal. A failed one changes nothing.

Modules:

- `Text` covers the three string primitives the handler uses: ECMAScript `trim`, `toLowerCase` (restricted to ASCII letters) and `includes`.
- `Chat` covers the reply selector, the send, edit and key-press handlers, and a structural description of every reachable transcript.
- `ChatExamples` works three sample conversations through the model.
- `Booking` covers the draft, the per-field change handlers, the confirm handler and the modal's open and close.
- `Page` combines both widgets with the visibility flags into one page state. It drives that state with a stream of UI events. An event whose control is not rendered has no effect. The module proves:
  - frame properties between the two widgets;
  - that the transcript is always the welcome message followed by one visitor/bot pair per text actually sent.

The reply normally appears one second after the visitor's message, through a timer. The model appends it in the same step. The two alerts of the confirm handler become a returned `Outcome`.

The close button (line 340) only hides the modal; the draft is kept and shown again on reopening. `Booking.CloseModal` keeps the draft, and `Page.LemmaCloseReopenKeepsDraft` proves that reopening shows it again.

## Model

| member | source | states |
|---|---|---|
| Text.Trim | LuxuryRestaurant.jsx:46 | the trimmed text is empty exactly when the message consists of ECMAScript whitespace only; otherwise it starts and ends with a non-whitespace character |
| Text.TrimStart | LuxuryRestaurant.jsx:46 | the result is a suffix of the input, everything removed is whitespace, and it does not start with whitespace |
| Text.TrimEnd | LuxuryRestaurant.jsx:46 | the result is a prefix of the input, everything removed is whitespace, and it does not end with whitespace |
| Text.LemmaTrimShape | LuxuryRestaurant.jsx:46 | trimming only removes whitespace at the two ends: the result occurs contiguously in the input with whitespace alone before and after it |
| Text.Lower | LuxuryRestaurant.jsx:52 | lower-casing keeps the length, maps each character on its own, and leaves no upper-case ASCII letter |
| Text.LowerChar | LuxuryRestaurant.jsx:52 | an upper-case ASCII letter moves to its lower-case partner; every other character, non-ASCII capitals included, is unchanged (narrower than `toLowerCase`, see Left out) |
| Text.LemmaLowerCharEqualIff | LuxuryRestaurant.jsx:52 | two characters lower-case to the same character if and only if they are equal or one is an ASCII capital and the other its lower-case partner |
| Text.LemmaLowerEqualIff | LuxuryRestaurant.jsx:52 | two texts lower-case to the same string if and only if they agree up to ASCII letter case |
| Text.LemmaLowerIdempotent | LuxuryRestaurant.jsx:52 | lower-casing twice is the same as lower-casing once |
| Text.LemmaLowerAppend | LuxuryRestaurant.jsx:52 | lower-casing distributes over concatenation |
| Text.Contains | LuxuryRestaurant.jsx:54-60 | `includes` is true exactly when the keyword occurs at some position of the text |
| Text.ContainsFrom | LuxuryRestaurant.jsx:54-60 | the left-to-right scan finds an occurrence exactly when one starts at or after the scan position |
| Text.LemmaMissingCharNotContained | LuxuryRestaurant.jsx:54-60 | a keyword with a character that the text lacks is not contained in it |
| Chat.Classify | LuxuryRestaurant.jsx:54-64 | the chosen group is one whose keywords occur (or the fallback), and no group the handler checks earlier has a keyword that occurs |
| Chat.LemmaFirstMatchUnique | LuxuryRestaurant.jsx:54-64 | the first-match description determines the group: any group meeting it is the one chosen |
| Chat.Reply | LuxuryRestaurant.jsx:51-64 | the reply is one of the five sentences; it is the fallback if and only if no keyword of any group occurs; a booking keyword always wins; menu wins over hours and location; hours wins over location |
| Chat.LemmaReplyIgnoresCase | LuxuryRestaurant.jsx:52 | messages equal up to ASCII letter case get the same reply |
| Chat.LemmaReplyOfUpper | LuxuryRestaurant.jsx:52 | an upper-cased message gets the same reply as the original |
| Chat.EditInput | LuxuryRestaurant.jsx:443 | typing replaces the text box contents and leaves the transcript alone |
| Chat.Send | LuxuryRestaurant.jsx:45-70 | a whitespace-only text box changes nothing; otherwise the transcript gains the untrimmed text as a visitor message and then its reply as a bot message, earlier messages stay, and the text box is emptied |
| Chat.KeyPress | LuxuryRestaurant.jsx:444 | a key other than Enter changes nothing; Enter sends exactly as the Send button does, including ignoring a blank text box |
| Chat.TranscriptOf | LuxuryRestaurant.jsx:9-11 | the transcript for a list of sent texts has two messages per text plus the welcome message, which comes first |
| Chat.LemmaInitialTranscript | LuxuryRestaurant.jsx:9-11 | the initial transcript is the one for no sent texts |
| Chat.LemmaTranscriptAt | LuxuryRestaurant.jsx:48-66 | the j-th sent text is at position 2j+1 as a visitor message, and its reply is right after it as a bot message |
| Chat.LemmaTranscriptSnoc | LuxuryRestaurant.jsx:48-66 | sending one more text appends its exchange to the transcript |
| Chat.LemmaSendExtendsTranscript | LuxuryRestaurant.jsx:45-70 | from a transcript built from sent texts, a send yields the transcript of the same texts, or of those texts plus the current one when it is not blank |
| Chat.LemmaVisitorMessagesSendable | LuxuryRestaurant.jsx:46-48 | every visitor message in a transcript of sendable texts is a non-blank message |
| Chat.LemmaBotMessagesCanned | LuxuryRestaurant.jsx:51-66 | every bot message after the welcome is one of the five canned sentences |
| ChatExamples.LemmaSampleReplies | LuxuryRestaurant.jsx:54-64 | "Can I get a reservation for tonight?" gets the booking prompt, "What time do you open?" gets the opening hours, and "asdf" gets the fallback sentence |
| Booking.SetField | LuxuryRestaurant.jsx:349-385 | a field's change handler sets that field to the new value and leaves the other five unchanged |
| Booking.Submit | LuxuryRestaurant.jsx:72-80 | confirming succeeds if and only if all six fields are non-empty; a success clears every field and closes the modal; a failure changes neither the draft nor the modal |
| Booking.LemmaConfirmResets | LuxuryRestaurant.jsx:13-15 | after a successful confirm the reservation state is the initial one |
| Booking.LemmaSecondSubmitFails | LuxuryRestaurant.jsx:73-78 | confirming again right after a success fails and changes nothing |
| Booking.LemmaOneEmptyFieldFails | LuxuryRestaurant.jsx:73-78 | clearing any single field makes confirming fail |
| Booking.LemmaApplyEditsLastWins | LuxuryRestaurant.jsx:349-385 | after any series of edits each field holds the value of the last edit to it, or its old value if none |
| Booking.LemmaApplyEditsSnoc | LuxuryRestaurant.jsx:349-385 | applying one more edit is one more change-handler call on the result |
| Booking.LemmaFilledFormConfirms | LuxuryRestaurant.jsx:72-80 | edits that give every field some non-empty value, in any order and with corrections, make confirming succeed |
| Booking.LemmaLastValueNonEmpty | LuxuryRestaurant.jsx:349-385 | a field edited at least once, only ever with non-empty values, ends non-empty |
| Booking.CloseModal | LuxuryRestaurant.jsx:340 | the close button hides the modal and keeps the draft |
| Booking.OpenModal | LuxuryRestaurant.jsx:104-107 | the "Reserve Table" button shows the modal over the current draft |
| Page.BookingStep | LuxuryRestaurant.jsx:335-398 | the two open buttons show the modal and the close button hides it, both keeping the draft; a change event updates its one field through the change handler and leaves the modal as it is; the confirm button yields the confirm handler's state and shows its outcome as an alert; only the confirm button raises an alert |
| Page.ChatStep | LuxuryRestaurant.jsx:406-449 | the chat button flips the window and the close button hides it, neither touching the chat state; typing replaces the text box and keeps the transcript; a key press and the Send button run the key-press and send handlers and leave the window open as it was |
| Page.Step | LuxuryRestaurant.jsx:335-450 | an event whose control is not rendered changes nothing; reservation events leave the chat untouched and chat events leave the reservation untouched; an alert appears exactly on an enabled confirm |
| Page.LemmaStepTranscript | LuxuryRestaurant.jsx:444-449 | one event appends to the transcript exactly the exchange of the text it sends, if any |
| Page.LemmaRunTranscript | LuxuryRestaurant.jsx:45-70 | over any series of events the transcript is the one for the earlier texts followed by every text the events sent, in order |
| Page.LemmaSentAreSendable | LuxuryRestaurant.jsx:46 | no text that a series of events sends is blank |
| Page.LemmaTranscriptFromStart | LuxuryRestaurant.jsx:9-11 | from the freshly loaded page the transcript is exactly the welcome message plus one exchange per sent text, and every sent text is non-blank |
| Page.LemmaStepAppendOnly | LuxuryRestaurant.jsx:48-66 | no event alters or removes a message already in the transcript |
| Page.LemmaTranscriptAppendOnly | LuxuryRestaurant.jsx:48-66 | the transcript before a series of events is a prefix of the transcript after it |
| Page.LemmaCloseReopenKeepsDraft | LuxuryRestaurant.jsx:340 | closing the modal and opening it again restores the same draft and leaves the chat alone |
| Page.LemmaConfirmOnPage | LuxuryRestaurant.jsx:72-80 | with the modal shown, the confirm button reports a confirmed reservation if and only if all six fields are non-empty; on success the reservation state is that of a fresh page and nothing else changes; otherwise the alert reports missing fields and the page is unchanged |
| Page.LemmaRunEdits | LuxuryRestaurant.jsx:349-385 | while the modal is shown, a series of input changes updates the draft exactly as applying the change handlers in order does, and leaves the rest of the page alone |
| Page.LemmaFillAndConfirm | LuxuryRestaurant.jsx:72-80 | after typing into the form, confirming succeeds if and only if the resulting draft has all six fields filled in; a success returns the reservation state to the initial one, and the chat is untouched |
| Page.LemmaToggleChatTwice | LuxuryRestaurant.jsx:406 | pressing the chat button twice restores the page |

## Left out

- Text.Lower, Text.LowerChar: only ASCII letters are lower-cased; every other character, such as 'É' or the KELVIN SIGN, is left unchanged. JavaScript's `toLowerCase` also maps other Unicode letters, including the KELVIN SIGN to `k`, which can make a keyword appear. Each such mapping would have to be tabulated.
- Chat.Send: the reply is appended in the same step as the visitor's message. The source appends it after a one-second timer, and the timer's closure holds the text that was sent. A second message sent within that second is placed before the first message's reply. The timer and this interleaving are not modelled.
- Booking.SetField: the time and guest-count inputs are drop-down lists with fixed options (lines 372-393). The email input (line 353) strips surrounding whitespace, and the date input (line 367) yields only "" or a yyyy-mm-dd date. The phone input does not restrict its value. The model accepts any text in every field, which includes every value the page can produce.
- Alerts are a returned `Outcome`, not blocking dialogs, and the text of each alert is not modelled.
- Rendering, CSS, animations, scrolling and the parallax offset (lines 5, 17-20 and 119), the `activeSection` state (line 6, declared but never set or read), and the static catalog arrays `menuItems`, `chefs` and `testimonials` (lines 23-43) are not part of this model. They have no behaviour beyond display.
- The navigation, Explore Menu and Add to Order buttons (lines 98-102, 139-141 and 203-205) have no click handlers, so they are not events.
- `app.py`, `database.py`, the whole `backend/` package and the `js/` sources are not part of this model. The page never calls them: reservations and chat stay in the browser.
