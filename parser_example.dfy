/** The parsing test of the repository, replayed on the model of the rich
    parser: a message with a single `Subject` header and a three-paragraph
    body. */
module ParserExample {
  import opened Wrappers
  import opened Strings
  import opened EmailProcessor

  const SubjectKey := "Subject"
  const SubjectText := "Test Email"
  const SubjectValue := " " + SubjectText
  const HeaderLine := SubjectKey + ":" + SubjectValue
  const Phrase := "test email for testing purposes"
  const Opening := "Hi there,\n\nThis is a "
  const Closing := ".\n\nBest regards,\nTest User"
  const Body := Opening + Phrase + Closing
  const Message := HeaderLine + BlankLine + Body

  lemma {:induction false} KeyFacts()
    ensures ':' !in SubjectKey
    ensures ToLower(Strip(SubjectKey)) == "subject"
  {
    assert ':' !in SubjectKey;
    KeyStripped();
    KeyLowered();
  }

  lemma {:induction false} KeyStripped()
    ensures Strip(SubjectKey) == SubjectKey
  {
    VisibleNotSpace(SubjectKey[0]);
    VisibleNotSpace(SubjectKey[|SubjectKey| - 1]);
    StripUnchanged(SubjectKey);
  }

  lemma {:induction false} KeyLowered()
    ensures ToLower(SubjectKey) == "subject"
  {
    assert SubjectKey == "S" + "ubject";
    LowerConcat("S", "ubject");
    LowerUnchanged("ubject");
    assert ToLower("S") == [LowerChar('S')];
  }

  lemma {:induction false} ValueFacts()
    ensures Strip(SubjectValue) == SubjectText
    ensures !StartsWith(SubjectText, SubjectPrefix)
  {
    StripLeadingSpace(' ', SubjectText);
    VisibleNotSpace(SubjectText[0]);
    VisibleNotSpace(SubjectText[|SubjectText| - 1]);
    StripUnchanged(SubjectText);
    assert SubjectText[0] != SubjectPrefix[0];
  }

  /** The header line yields the entry `("subject", "Test Email")`. */
  lemma {:induction false} HeaderLineEntry()
    ensures HeaderEntry(HeaderLine) == Some(("subject", SubjectText))
  {
    KeyFacts();
    LineSplitAtFirstColon(SubjectKey, SubjectValue);
    ValueFacts();
  }

  lemma {:induction false} HeaderLineShape()
    ensures '\n' !in HeaderLine && HeaderLine[|HeaderLine| - 1] != '\n'
  {
    assert HeaderLine[|HeaderLine| - 1] == SubjectValue[|SubjectValue| - 1];
  }

  lemma {:induction false} BodyIsTrimmed()
    ensures Strip(Body) == Body
  {
    assert Body[0] == Opening[0];
    assert Body[|Body| - 1] == Closing[|Closing| - 1];
    VisibleNotSpace(Opening[0]);
    VisibleNotSpace(Closing[|Closing| - 1]);
    StripUnchanged(Body);
  }

  lemma {:induction false} PhraseInLowerBody()
    ensures OccursAt(ToLower(Body), Phrase, |Opening|)
  {
    LowerConcat(Opening + Phrase, Closing);
    LowerConcat(Opening, Phrase);
    LowerUnchanged(Phrase);
    OccursInMiddle(ToLower(Opening), Phrase, ToLower(Closing));
  }

  /** The test's expectations: the subject is "Test Email" and the
      lower-cased body holds "test email for testing purposes"; the body is
      everything after the first blank line, kept whole. */
  lemma {:induction false} MessageParsing(strptime: DateParser)
    ensures var e := Parsed(Message, strptime);
            && e.subject == SubjectText
            && e.emailBody == Body
            && e.headers == map["subject" := SubjectText]
            && Contains(ToLower(e.emailBody), Phrase)
  {
    HeaderLineEntry();
    HeaderLineShape();
    AbsentFirstChar(HeaderLine, BlankLine);
    BodyAfterFirstBlankLine(HeaderLine, Body, strptime);
    SubjectField(Message, strptime);
    HeaderTextNeverInBody(HeaderLine, Body);
    SplitWithoutSeparator(HeaderLine, '\n');
    assert HeaderMap([HeaderLine]) == map["subject" := SubjectText];
    ValueFacts();
    SubjectRule(map["subject" := SubjectText]);
    BodyIsTrimmed();
    PhraseInLowerBody();
    ContainsAt(ToLower(Body), Phrase, |Opening|);
  }
}
