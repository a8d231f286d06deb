/** The decoded survey response detail: pages of questions of answers.
    Every key the controller reads through `?? default` is optional here,
    and the accessors below supply the same defaults. */
module SurveyData {
  import opened Php

  datatype Answer = Answer(text: Option<string>)
  datatype Question = Question(heading: Option<string>, answers: Option<seq<Answer>>)
  datatype Page = Page(questions: Option<seq<Question>>)
  datatype SurveyResponse = SurveyResponse(pages: Option<seq<Page>>)

  /** `$x ?? default` for an optional value. */
  function OrElse<T>(x: Option<T>, default: T): T {
    if x.Some? then x.value else default
  }

  /** `$surveyResponse['pages'] ?? []` */
  function PagesOf(r: SurveyResponse): seq<Page> { OrElse(r.pages, []) }

  /** `$page['questions'] ?? []` */
  function QuestionsOf(p: Page): seq<Question> { OrElse(p.questions, []) }

  /** `$question['heading'] ?? ''` */
  function HeadingOf(q: Question): string { OrElse(q.heading, "") }

  /** `$question['answers'] ?? []` */
  function AnswersOf(q: Question): seq<Answer> { OrElse(q.answers, []) }

  /** `$answer['text'] ?? ''` */
  function TextOf(a: Answer): string { OrElse(a.text, "") }

  /** e is the text (defaulted) of some answer of some question of some page of r. */
  ghost predicate IsAnswerText(r: SurveyResponse, e: string) {
    exists p, q, a ::
      0 <= p < |PagesOf(r)| &&
      0 <= q < |QuestionsOf(PagesOf(r)[p])| &&
      0 <= a < |AnswersOf(QuestionsOf(PagesOf(r)[p])[q])| &&
      e == TextOf(AnswersOf(QuestionsOf(PagesOf(r)[p])[q])[a])
  }

  /** The response with every key written out: a missing key becomes present with
      the default the controller reads for it (`[]` or `""`), a present one keeps its value. */
  function Filled(r: SurveyResponse): SurveyResponse {
    var ps := PagesOf(r);
    SurveyResponse(Some(seq(|ps|, i requires 0 <= i < |ps| => FilledPage(ps[i]))))
  }

  function FilledPage(p: Page): Page {
    var qs := QuestionsOf(p);
    Page(Some(seq(|qs|, i requires 0 <= i < |qs| => FilledQuestion(qs[i]))))
  }

  function FilledQuestion(q: Question): Question {
    var ans := AnswersOf(q);
    Question(Some(HeadingOf(q)), Some(seq(|ans|, i requires 0 <= i < |ans| => FilledAnswer(ans[i]))))
  }

  function FilledAnswer(a: Answer): Answer {
    Answer(Some(TextOf(a)))
  }
}
