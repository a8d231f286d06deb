/** Small responses: the extraction and the handler on one page of one or two questions. */
module Scenarios {
  import opened Php
  import opened SurveyData
  import opened EmailExtraction
  import opened Webhook

  /** A question with a heading and a single answer. */
  function Q(heading: string, text: string): Question {
    Question(Some(heading), Some([Answer(Some(text))]))
  }

  function OnePage(qs: seq<Question>): SurveyResponse {
    SurveyResponse(Some([Page(Some(qs))]))
  }

  lemma QuestionsOfOnePage(qs: seq<Question>)
    ensures Questions(OnePage(qs)) == qs
  {
    var pages := [Page(Some(qs))];
    assert pages[..|pages| - 1] == [];
    assert Concat(pages, QuestionsOf) == Concat([], QuestionsOf) + QuestionsOf(pages[0]);
  }

  lemma TextsOfQ(heading: string, text: string)
    ensures AnswerTexts(Q(heading, text)) == [text]
  {
    var answers := [Answer(Some(text))];
    assert answers[..|answers| - 1] == [];
    assert Concat(answers, AnswerText) == Concat([], AnswerText) + AnswerText(answers[0]);
  }

  lemma ConcatPair<T, U>(a: T, b: T, f: T -> seq<U>)
    ensures Concat([a, b], f) == f(a) + f(b)
  {
    assert [a, b] == [a] + [b] && [a] == [] + [a];
    ConcatSnoc([a], b, f);
    ConcatSnoc([], a, f);
  }

  /** Headings used below: "Your EMAIL" matches, "Name" does not. */
  lemma YourEmailMatches()
    ensures Contains(Lower("Your EMAIL"), "email")
  {
    assert "Your EMAIL" == "Your " + "EMAIL";
    LowerAppend("Your ", "EMAIL");
    assert Lower("EMAIL") == "email";
    ContainsInfix(Lower("Your "), "email", "");
    assert Lower("Your ") + "email" + "" == Lower("Your EMAIL");
  }

  /** Any heading that starts with "Email", such as "Email Address", contains "email" once lowered. */
  lemma EmailFirstMatches(rest: string)
    ensures Contains(Lower("Email" + rest), "email")
  {
    LowerAppend("Email", rest);
    assert Lower("Email") == "email";
    ContainsInfix("", "email", Lower(rest));
    assert "" + "email" + Lower(rest) == Lower("Email" + rest);
  }

  lemma NameDoesNotMatch()
    ensures !Contains(Lower("Name"), "email")
  {
  }

  /** A question whose heading matches and whose answer is accepted is what pass 1 returns. */
  lemma HeadingExample(heading: string, text: string, valid: string -> bool)
    requires Contains(Lower(heading), "email") && valid(text)
    ensures ExtractEmail(OnePage([Q(heading, text)]), valid) == Some(text)
  {
    QuestionsOfOnePage([Q(heading, text)]);
    HeadingPassFirstQuestion(OnePage([Q(heading, text)]), 0, valid);
  }

  /** An accepted answer under an earlier, non-matching heading loses to a later email question. */
  lemma HeadingBeatsEarlierAnswer(h1: string, t1: string, h2: string, t2: string, valid: string -> bool)
    requires !Contains(Lower(h1), "email") && valid(t1)
    requires Contains(Lower(h2), "email") && valid(t2)
    ensures ExtractEmail(OnePage([Q(h1, t1), Q(h2, t2)]), valid) == Some(t2)
  {
    QuestionsOfOnePage([Q(h1, t1), Q(h2, t2)]);
    HeadingPassFirstQuestion(OnePage([Q(h1, t1), Q(h2, t2)]), 1, valid);
  }

  /** With no matching heading, the first accepted answer anywhere is taken. */
  lemma FallbackExample(h1: string, t1: string, h2: string, t2: string, valid: string -> bool)
    requires !Contains(Lower(h1), "email") && !Contains(Lower(h2), "email")
    requires !valid(t1) && valid(t2)
    ensures ExtractEmail(OnePage([Q(h1, t1), Q(h2, t2)]), valid) == Some(t2)
  {
    var qs := [Q(h1, t1), Q(h2, t2)];
    QuestionsOfOnePage(qs);
    ConcatPair(qs[0], qs[1], HeadingProbe);
    ConcatPair(qs[0], qs[1], AnswerTexts);
    TextsOfQ(h1, t1);
    TextsOfQ(h2, t2);
    var r := OnePage(qs);
    assert HeadingProbe(qs[0]) == [] && HeadingProbe(qs[1]) == [];
    assert HeadingPass(r, valid) == FirstValid([], valid);
    assert AnswerPass(r, valid) == FirstValid([t1, t2], valid);
    FirstValidAt([t1, t2], 1, valid);
  }

  /** The same, on the headings above. */
  lemma SampleExtractions(valid: string -> bool)
    requires valid("a@b.com") && valid("x@y.org") && !valid("Ann")
    ensures ExtractEmail(OnePage([Q("Your EMAIL", "a@b.com")]), valid) == Some("a@b.com")
    ensures ExtractEmail(OnePage([Q("Name", "x@y.org"), Q("Your EMAIL", "a@b.com")]), valid) == Some("a@b.com")
    ensures ExtractEmail(OnePage([Q("Name", "Ann"), Q("Name", "x@y.org")]), valid) == Some("x@y.org")
  {
    YourEmailMatches();
    NameDoesNotMatch();
    HeadingExample("Your EMAIL", "a@b.com", valid);
    HeadingBeatsEarlierAnswer("Name", "x@y.org", "Your EMAIL", "a@b.com", valid);
    FallbackExample("Name", "Ann", "Name", "x@y.org", valid);
  }

  /** End to end: a completed response with one email question, and a CRM replying 201. */
  lemma SuccessExample(heading: string, email: string, valid: string -> bool)
    requires Contains(Lower(heading), "email") && valid(email) && !Falsy(Some(email))
    ensures HandleSurveyMonkey(
              Notification(Some(ResponseCompleted), Some("S1"), Some("R1")),
              SurveyReply(200, OnePage([Q(heading, email)])),
              CrmReply(201), valid)
            == Outcome(200, Message("Success"), [FetchDetails("S1", "R1"), CreatePerson(PayloadFor(email))])
  {
    HeadingExample(heading, email, valid);
  }
}
