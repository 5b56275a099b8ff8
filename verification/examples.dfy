/**
 Three sample conversations with the chat widget, worked
 through the model: a booking question, an opening-hours question and a message
 that matches nothing.
 */
module ChatExamples {
  import opened Text
  import opened Chat

  const BookingQuestion: string := "Can I get a reservation for tonight?"
  const BookingQuestionStart: string := "Can I get a "
  const BookingQuestionEnd: string := " for tonight?"
  const HoursQuestion: string := "What time do you open?"
  const Gibberish: string := "asdf"

  lemma LemmaBookingQuestionLower()
    ensures Lower(BookingQuestion) == "can i get a " + "reservation" + " for tonight?"
  {
    assert BookingQuestion == BookingQuestionStart + "reservation" + BookingQuestionEnd;
    LemmaLowerAppend(BookingQuestionStart + "reservation", BookingQuestionEnd);
    LemmaLowerAppend(BookingQuestionStart, "reservation");
    assert Lower(BookingQuestionStart) == "can i get a ";
    assert Lower("reservation") == "reservation";
    assert Lower(BookingQuestionEnd) == " for tonight?";
  }

  lemma LemmaHoursQuestionLower()
    ensures Lower(HoursQuestion) == "what time do you open?"
  {
  }

  /** "menu" does not occur: its only candidate start, the `m` of "time", is
      not followed by "enu". */
  lemma LemmaHoursQuestionNoMenu()
    ensures !Contains("what time do you open?", "menu")
  {
    var h := "what time do you open?";
    forall i | 0 <= i && i + 4 <= |h|
      ensures !OccursAt(h, "menu", i)
    {
      assert h[i..i + 4][0] == h[i] && h[i..i + 4][2] == h[i + 2];
      assert h[i] != 'm' || h[i + 2] != 'n';
    }
  }

  lemma LemmaHoursQuestionNoFood()
    ensures !Contains("what time do you open?", "food")
  {
    LemmaMissingCharNotContained("what time do you open?", "food", 'f');
  }

  lemma LemmaHoursQuestionNoBook()
    ensures !Contains("what time do you open?", "book")
  {
    LemmaMissingCharNotContained("what time do you open?", "book", 'b');
  }

  lemma LemmaHoursQuestionNoReservation()
    ensures !Contains("what time do you open?", "reservation")
  {
    LemmaMissingCharNotContained("what time do you open?", "reservation", 'r');
  }

  lemma LemmaBookingQuestionMentionsBooking()
    ensures Mentions(BookingQuestion, Booking)
  {
    var pre, word, post := "can i get a ", "reservation", " for tonight?";
    LemmaBookingQuestionLower();
    assert (pre + word + post)[|pre|..|pre| + |word|] == word;
    assert OccursAt(Lower(BookingQuestion), Keywords(Booking)[1], |pre|);
  }

  lemma LemmaHoursQuestionNotBooking()
    ensures !Mentions(HoursQuestion, Booking)
  {
    LemmaHoursQuestionNoBook();
    LemmaHoursQuestionNoReservation();
    LemmaHoursQuestionLower();
  }

  lemma LemmaHoursQuestionNotMenu()
    ensures !Mentions(HoursQuestion, Menu)
  {
    LemmaHoursQuestionNoMenu();
    LemmaHoursQuestionNoFood();
    LemmaHoursQuestionLower();
  }

  lemma LemmaHoursQuestionMentionsHours()
    ensures Mentions(HoursQuestion, Hours)
  {
    LemmaHoursQuestionLower();
    assert OccursAt("what time do you open?", Keywords(Hours)[1], 17);
  }

  /** Each keyword has a letter that "asdf" lacks. */
  lemma LemmaGibberishFirstHalf()
    ensures !Contains(Gibberish, "book") && !Contains(Gibberish, "reservation")
    ensures !Contains(Gibberish, "menu") && !Contains(Gibberish, "food")
  {
    LemmaMissingCharNotContained(Gibberish, "book", 'b');
    LemmaMissingCharNotContained(Gibberish, "reservation", 'r');
    LemmaMissingCharNotContained(Gibberish, "menu", 'm');
    LemmaMissingCharNotContained(Gibberish, "food", 'o');
  }

  lemma LemmaGibberishSecondHalf()
    ensures !Contains(Gibberish, "hours") && !Contains(Gibberish, "open")
    ensures !Contains(Gibberish, "location") && !Contains(Gibberish, "address")
  {
    LemmaMissingCharNotContained(Gibberish, "hours", 'h');
    LemmaMissingCharNotContained(Gibberish, "open", 'o');
    LemmaMissingCharNotContained(Gibberish, "location", 'l');
    LemmaMissingCharNotContained(Gibberish, "address", 'r');
  }

  lemma LemmaGibberishMentionsNothing()
    ensures MentionsNothing(Gibberish)
  {
    assert Lower(Gibberish) == Gibberish;
    LemmaGibberishFirstHalf();
    LemmaGibberishSecondHalf();
  }

  /** The sample answers: the booking prompt, the opening hours, and the
      fallback sentence. */
  lemma LemmaSampleReplies()
    ensures Reply(BookingQuestion) == BookingReply
    ensures Reply(HoursQuestion) == HoursReply
    ensures Reply(Gibberish) == FallbackReply
  {
    LemmaBookingQuestionMentionsBooking();
    LemmaHoursQuestionNotBooking();
    LemmaHoursQuestionNotMenu();
    LemmaHoursQuestionMentionsHours();
    LemmaGibberishMentionsNothing();
  }
}
