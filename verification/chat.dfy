/**
 The chat widget: a first-match keyword classifier that picks one of five canned
 replies, and the transcript the send handler appends to. The one-second delay
 before the reply is shown is collapsed: the reply is appended in the same step
 as the visitor's message.
 */
module Chat {
  import opened Text

  /** The reply groups, in the order the handler tests them. */
  datatype Topic = Booking | Menu | Hours | Location | Fallback

  /** Position of a topic in the test order; the fallback comes last. */
  function Rank(t: Topic): nat {
    match t
    case Booking => 0
    case Menu => 1
    case Hours => 2
    case Location => 3
    case Fallback => 4
  }

  /** The keywords that select each topic; the fallback has none. */
  function Keywords(t: Topic): seq<string> {
    match t
    case Booking => ["book", "reservation"]
    case Menu => ["menu", "food"]
    case Hours => ["hours", "open"]
    case Location => ["location", "address"]
    case Fallback => []
  }

  /** Some keyword of `t` occurs in the lower-cased input. */
  predicate Mentions(input: string, t: Topic) {
    exists j :: 0 <= j < |Keywords(t)| && Contains(Lower(input), Keywords(t)[j])
  }

  /** No keyword of any group occurs in the lower-cased input. */
  predicate MentionsNothing(input: string) {
    !Mentions(input, Booking) && !Mentions(input, Menu)
    && !Mentions(input, Hours) && !Mentions(input, Location)
  }

  const BookingReply: string :=
    "I'd be happy to help you make a reservation! Please click the \"Book a Table\" button to choose your preferred date and time."
  const MenuReply: string :=
    "We offer exquisite French and Italian cuisine. Our signature dishes include Wagyu Beef Steak and Truffle Risotto. Would you like to see our full menu?"
  const HoursReply: string :=
    "We're open Tuesday to Sunday, 5:00 PM - 11:00 PM. We're closed on Mondays."
  const LocationReply: string :=
    "We're located at 123 Gourmet Street, Downtown District. You can find directions in our contact section!"
  const FallbackReply: string :=
    "Thank you for your message! For specific inquiries, please call us at (555) 123-4567 or visit our contact section."

  function ReplyText(t: Topic): string {
    match t
    case Booking => BookingReply
    case Menu => MenuReply
    case Hours => HoursReply
    case Location => LocationReply
    case Fallback => FallbackReply
  }

  /** The handler's if/else-if chain over the lower-cased input. The result is
      the first topic, in test order, whose keywords occur; the fallback only
      when none does. */
  function Classify(input: string): (r: Topic)
    ensures r == Fallback || Mentions(input, r)
    ensures forall t :: Rank(t) < Rank(r) ==> !Mentions(input, t)
  {
    var s := Lower(input);
    if Contains(s, "book") || Contains(s, "reservation") then
      assert Contains(s, Keywords(Booking)[0]) || Contains(s, Keywords(Booking)[1]);
      Booking
    else if Contains(s, "menu") || Contains(s, "food") then
      assert Contains(s, Keywords(Menu)[0]) || Contains(s, Keywords(Menu)[1]);
      Menu
    else if Contains(s, "hours") || Contains(s, "open") then
      assert Contains(s, Keywords(Hours)[0]) || Contains(s, Keywords(Hours)[1]);
      Hours
    else if Contains(s, "location") || Contains(s, "address") then
      assert Contains(s, Keywords(Location)[0]) || Contains(s, Keywords(Location)[1]);
      Location
    else
      Fallback
  }

  /** The first-match description pins down a single topic. */
  lemma LemmaFirstMatchUnique(input: string, t: Topic)
    requires t == Fallback || Mentions(input, t)
    requires forall u :: Rank(u) < Rank(t) ==> !Mentions(input, u)
    ensures Classify(input) == t
  {
  }

  /** The bot's answer to one visitor message. */
  function Reply(input: string): (r: string)
    ensures r in [BookingReply, MenuReply, HoursReply, LocationReply, FallbackReply]
    ensures r == FallbackReply <==> MentionsNothing(input)
    ensures Mentions(input, Booking) ==> r == BookingReply
    ensures !Mentions(input, Booking) && Mentions(input, Menu) ==> r == MenuReply
    ensures !Mentions(input, Booking) && !Mentions(input, Menu) && Mentions(input, Hours)
            ==> r == HoursReply
    ensures (!Mentions(input, Booking) && !Mentions(input, Menu) && !Mentions(input, Hours)
             && Mentions(input, Location)) ==> r == LocationReply
  {
    var t := Classify(input);
    assert Rank(Booking) < Rank(Menu) < Rank(Hours) < Rank(Location) < Rank(Fallback);
    ReplyText(t)
  }

  /** Inputs that differ only in the case of ASCII letters get the same reply. */
  lemma LemmaReplyIgnoresCase(a: string, b: string)
    requires SameIgnoringCase(a, b)
    ensures Reply(a) == Reply(b)
  {
    LemmaLowerEqualIff(a, b);
  }

  /** Shouting a question does not change the answer. */
  lemma LemmaReplyOfUpper(s: string)
    ensures Reply(Upper(s)) == Reply(s)
  {
    LemmaUpperSameIgnoringCase(s);
    LemmaReplyIgnoresCase(Upper(s), s);
  }

  /** Who wrote a message. */
  datatype Sender = User | Bot

  datatype Message = Message(sender: Sender, text: string)

  /** The transcript and the text box of the chat widget. */
  datatype ChatState = ChatState(messages: seq<Message>, input: string)

  const Welcome: Message := Message(Bot, "Welcome to Restoran! How may I assist you today?")

  const InitialChat: ChatState := ChatState([Welcome], "")

  /** Typing into the text box replaces its contents and nothing else. */
  function EditInput(st: ChatState, value: string): (r: ChatState)
    ensures r.messages == st.messages && r.input == value
  {
    st.(input := value)
  }

  /** The send handler. A text box holding only whitespace (or nothing)
      changes nothing. Otherwise the untrimmed text is appended as a visitor
      message, then the reply to it as a bot message; earlier messages stay in
      place and the text box is emptied. */
  function Send(st: ChatState): (r: ChatState)
    ensures AllWhitespace(st.input) ==> r == st
    ensures !AllWhitespace(st.input) ==>
      && r.messages == st.messages + [Message(User, st.input), Message(Bot, Reply(st.input))]
      && r.input == []
  {
    if IsBlank(st.input) then
      st
    else
      ChatState(st.messages + [Message(User, st.input), Message(Bot, Reply(st.input))], "")
  }

  /** A key press in the text box sends only when the key is Enter. */
  function KeyPress(st: ChatState, key: string): (r: ChatState)
    ensures key != "Enter" ==> r == st
    ensures key == "Enter" && AllWhitespace(st.input) ==> r == st
    ensures key == "Enter" && !AllWhitespace(st.input) ==>
      r.input == [] && r.messages == st.messages + Exchange(st.input)
  {
    if key == "Enter" then Send(st) else st
  }

  /** One visitor message and the answer to it. */
  function Exchange(text: string): seq<Message> {
    [Message(User, text), Message(Bot, Reply(text))]
  }

  /** The transcript after the visitor has sent the texts `sent`, in order:
      the welcome message, then each text followed by its reply. */
  function TranscriptOf(sent: seq<string>): (m: seq<Message>)
    ensures |m| == 2 * |sent| + 1
    ensures m[0] == Welcome
    decreases |sent|
  {
    if sent == [] then
      [Welcome]
    else
      TranscriptOf(sent[..|sent| - 1]) + Exchange(sent[|sent| - 1])
  }

  /** The `j`-th sent text sits at position `2j + 1`, its reply right after. */
  lemma {:induction false} LemmaTranscriptAt(sent: seq<string>, j: nat)
    requires j < |sent|
    ensures TranscriptOf(sent)[2 * j + 1] == Message(User, sent[j])
    ensures TranscriptOf(sent)[2 * j + 2] == Message(Bot, Reply(sent[j]))
    decreases |sent|
  {
    var prev := sent[..|sent| - 1];
    if j < |prev| {
      LemmaTranscriptAt(prev, j);
      assert prev[j] == sent[j];
    }
  }

  /** No sent text is whitespace only. */
  predicate AllSendable(sent: seq<string>) {
    forall j :: 0 <= j < |sent| ==> !AllWhitespace(sent[j])
  }

  /** The transcript starts as the welcome message alone. */
  lemma LemmaInitialTranscript()
    ensures InitialChat.messages == TranscriptOf([])
  {
  }

  lemma LemmaTranscriptSnoc(sent: seq<string>, text: string)
    ensures TranscriptOf(sent + [text]) == TranscriptOf(sent) + Exchange(text)
  {
    assert (sent + [text])[..|sent|] == sent;
  }

  /** Sending extends the transcript by exactly the sent text's exchange; a
      whitespace-only text box leaves the list of sent texts as it was. */
  lemma LemmaSendExtendsTranscript(st: ChatState, sent: seq<string>)
    requires st.messages == TranscriptOf(sent)
    ensures AllWhitespace(st.input) ==> Send(st).messages == TranscriptOf(sent)
    ensures !AllWhitespace(st.input) ==> Send(st).messages == TranscriptOf(sent + [st.input])
  {
    if !AllWhitespace(st.input) {
      LemmaTranscriptSnoc(sent, st.input);
    }
  }

  /** The visitor message of the `j`-th exchange is a sendable text. */
  lemma LemmaVisitorMessagesSendable(sent: seq<string>, j: nat)
    requires AllSendable(sent) && j < |sent|
    ensures TranscriptOf(sent)[2 * j + 1].sender == User
    ensures !AllWhitespace(TranscriptOf(sent)[2 * j + 1].text)
  {
    LemmaTranscriptAt(sent, j);
  }

  /** The bot message of the `j`-th exchange is one of the five canned replies. */
  lemma LemmaBotMessagesCanned(sent: seq<string>, j: nat)
    requires j < |sent|
    ensures TranscriptOf(sent)[2 * j + 2].sender == Bot
    ensures TranscriptOf(sent)[2 * j + 2].text
            in [BookingReply, MenuReply, HoursReply, LocationReply, FallbackReply]
  {
    LemmaTranscriptAt(sent, j);
  }
}
