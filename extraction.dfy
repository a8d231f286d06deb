/** The two-pass email search of `WebhookController::extractEmailFromResponse`.
    The acceptance test of `filter_var($s, FILTER_VALIDATE_EMAIL)` is not
    modelled; it is the parameter `valid` throughout. */
module EmailExtraction {
  import opened Php
  import opened SurveyData

  // ---------------------------------------------------------------------
  // Flattening and first-match search
  // ---------------------------------------------------------------------

  /** The concatenation of f(x) for x in xs, in order. Defined from the back,
      so that a loop over a growing prefix appends one f(x) per step. */
  function Concat<T, U>(xs: seq<T>, f: T -> seq<U>): seq<U> {
    if xs == [] then [] else Concat(xs[..|xs| - 1], f) + f(xs[|xs| - 1])
  }

  lemma ConcatSnoc<T, U>(xs: seq<T>, x: T, f: T -> seq<U>)
    ensures Concat(xs + [x], f) == Concat(xs, f) + f(x)
  {
    assert (xs + [x])[..|xs|] == xs;
  }

  lemma {:induction false} ConcatAppend<T, U>(a: seq<T>, b: seq<T>, f: T -> seq<U>)
    ensures Concat(a + b, f) == Concat(a, f) + Concat(b, f)
    decreases |b|
  {
    if b == [] {
      assert a + b == a;
    } else {
      var b' := b[..|b| - 1];
      assert a + b == (a + b') + [b[|b| - 1]];
      assert b == b' + [b[|b| - 1]];
      ConcatSnoc(a + b', b[|b| - 1], f);
      ConcatSnoc(b', b[|b| - 1], f);
      ConcatAppend(a, b', f);
    }
  }

  /** Flattening keeps prefixes: a prefix of xs flattens to a prefix. */
  lemma ConcatPrefix<T, U>(a: seq<T>, b: seq<T>, f: T -> seq<U>)
    requires a <= b
    ensures Concat(a, f) <= Concat(b, f)
  {
    assert b == a + b[|a|..];
    ConcatAppend(a, b[|a|..], f);
  }

  /** What the flattening holds: exactly the elements of the f(x). */
  lemma {:induction false} ConcatMember<T, U>(xs: seq<T>, f: T -> seq<U>, u: U)
    ensures u in Concat(xs, f) <==> exists i :: 0 <= i < |xs| && u in f(xs[i])
    decreases |xs|
  {
    if xs != [] {
      var n := |xs| - 1;
      ConcatMember(xs[..n], f, u);
      assert forall i :: 0 <= i < n ==> xs[..n][i] == xs[i];
    }
  }

  /** Flattening two sequences whose elements flatten alike, position by position, gives the same result. */
  lemma {:induction false} ConcatPointwise<T, S, U>(xs: seq<T>, f: T -> seq<U>, ys: seq<S>, g: S -> seq<U>)
    requires |xs| == |ys|
    requires forall i :: 0 <= i < |xs| ==> f(xs[i]) == g(ys[i])
    ensures Concat(xs, f) == Concat(ys, g)
    decreases |xs|
  {
    if xs != [] {
      var n := |xs| - 1;
      assert forall i :: 0 <= i < n ==> xs[..n][i] == xs[i] && ys[..n][i] == ys[i];
      ConcatPointwise(xs[..n], f, ys[..n], g);
    }
  }

  /** Flattening twice is flattening once by the composed map. */
  lemma {:induction false} ConcatConcat<T, S, U>(xs: seq<T>, f: T -> seq<S>, g: S -> seq<U>, h: T -> seq<U>)
    requires forall x :: h(x) == Concat(f(x), g)
    ensures Concat(Concat(xs, f), g) == Concat(xs, h)
    decreases |xs|
  {
    if xs != [] {
      var n := |xs| - 1;
      ConcatConcat(xs[..n], f, g, h);
      ConcatAppend(Concat(xs[..n], f), f(xs[n]), g);
    }
  }

  /** The first string in ts, in order, that the validator accepts. */
  function FirstValid(ts: seq<string>, valid: string -> bool): Option<string> {
    if ts == [] then None
    else if valid(ts[0]) then Some(ts[0])
    else FirstValid(ts[1..], valid)
  }

  lemma {:induction false} FirstValidAppend(a: seq<string>, b: seq<string>, valid: string -> bool)
    ensures FirstValid(a + b, valid) ==
            if FirstValid(a, valid).Some? then FirstValid(a, valid) else FirstValid(b, valid)
  {
    if a == [] {
      assert a + b == b;
    } else {
      assert (a + b)[1..] == a[1..] + b;
      FirstValidAppend(a[1..], b, valid);
    }
  }

  /** Once a prefix has a valid string, what follows it does not matter. */
  lemma FirstValidPrefix(p: seq<string>, s: seq<string>, valid: string -> bool)
    requires p <= s
    requires FirstValid(p, valid).Some?
    ensures FirstValid(s, valid) == FirstValid(p, valid)
  {
    assert s == p + s[|p|..];
    FirstValidAppend(p, s[|p|..], valid);
  }

  /** FirstValid finds the least accepted index. */
  lemma {:induction false} FirstValidAt(ts: seq<string>, k: int, valid: string -> bool)
    requires 0 <= k < |ts| && valid(ts[k])
    requires forall j :: 0 <= j < k ==> !valid(ts[j])
    ensures FirstValid(ts, valid) == Some(ts[k])
  {
    if k > 0 {
      assert !valid(ts[0]);
      FirstValidAt(ts[1..], k - 1, valid);
    }
  }

  /** FirstValid is absent exactly when nothing is accepted. */
  lemma {:induction false} FirstValidNone(ts: seq<string>, valid: string -> bool)
    ensures FirstValid(ts, valid) == None <==> forall k :: 0 <= k < |ts| ==> !valid(ts[k])
  {
    if ts != [] {
      FirstValidNone(ts[1..], valid);
      assert forall k :: 1 <= k < |ts| ==> ts[k] == ts[1..][k - 1];
    }
  }

  /** A found string is accepted, comes from ts, and nothing before it is accepted. */
  lemma {:induction false} FirstValidFound(ts: seq<string>, valid: string -> bool)
    requires FirstValid(ts, valid).Some?
    ensures exists k :: 0 <= k < |ts| && ts[k] == FirstValid(ts, valid).value && valid(ts[k]) &&
                        forall j :: 0 <= j < k ==> !valid(ts[j])
  {
    if !valid(ts[0]) {
      FirstValidFound(ts[1..], valid);
      var k :| 0 <= k < |ts[1..]| && ts[1..][k] == FirstValid(ts[1..], valid).value && valid(ts[1..][k]) &&
               forall j :: 0 <= j < k ==> !valid(ts[1..][j]);
      assert ts[k + 1] == ts[1..][k];
      forall j | 0 <= j < k + 1 ensures !valid(ts[j]) {
        if j > 0 { assert ts[j] == ts[1..][j - 1]; }
      }
    } else {
      assert ts[0] == FirstValid(ts, valid).value;
    }
  }

  // ---------------------------------------------------------------------
  // The two passes, as functions of the response
  // ---------------------------------------------------------------------

  /** All questions of the response, page by page. */
  function Questions(r: SurveyResponse): seq<Question> {
    Concat(PagesOf(r), QuestionsOf)
  }

  /** Pass 1's test before validation: the lowered heading contains "email"
      and the question has an answer. */
  predicate HeadingMatches(q: Question) {
    Contains(Lower(HeadingOf(q)), "email") && |AnswersOf(q)| > 0
  }

  /** What pass 1 tests of one question: its first answer's text, if the heading matches. */
  function HeadingProbe(q: Question): seq<string> {
    if HeadingMatches(q) then [TextOf(AnswersOf(q)[0])] else []
  }

  function AnswerText(a: Answer): seq<string> { [TextOf(a)] }

  /** What pass 2 tests of one question: every answer's text, in order. */
  function AnswerTexts(q: Question): seq<string> {
    Concat(AnswersOf(q), AnswerText)
  }

  /** Pass 1: the first heading-matched question whose first answer is accepted. */
  function HeadingPass(r: SurveyResponse, valid: string -> bool): Option<string> {
    FirstValid(Concat(Questions(r), HeadingProbe), valid)
  }

  /** Pass 2: the first accepted answer text anywhere. */
  function AnswerPass(r: SurveyResponse, valid: string -> bool): Option<string> {
    FirstValid(Concat(Questions(r), AnswerTexts), valid)
  }

  /** The specification of the search: pass 1, and pass 2 only if pass 1 finds nothing. */
  function ExtractEmail(r: SurveyResponse, valid: string -> bool): Option<string> {
    var h := HeadingPass(r, valid);
    if h.Some? then h else AnswerPass(r, valid)
  }

  /** A question pass 1 accepts. */
  predicate HeadingCandidate(q: Question, valid: string -> bool) {
    HeadingMatches(q) && valid(TextOf(AnswersOf(q)[0]))
  }

  // ---------------------------------------------------------------------
  // The controller's loops
  // ---------------------------------------------------------------------

  /** `extractEmailFromResponse`: the heading scan, then the answer scan if it found nothing.
      Each `foreach` level of the controller is one method below. */
  method ExtractEmailFromResponse(r: SurveyResponse, valid: string -> bool) returns (email: Option<string>)
    ensures email == ExtractEmail(r, valid)
    ensures email.Some? ==> valid(email.value) && IsAnswerText(r, email.value)
  {
    var pages := PagesOf(r);
    email := HeadingScan(pages, valid);
    if email.None? {
      email := AnswerScan(pages, valid);
    }
    if email.Some? {
      ExtractEmailSound(r, valid);
    }
  }

  /** Pass 1, the loop over pages. */
  method HeadingScan(pages: seq<Page>, valid: string -> bool) returns (email: Option<string>)
    ensures email == FirstValid(Concat(Concat(pages, QuestionsOf), HeadingProbe), valid)
  {
    ghost var seen: seq<string> := [];
    var i := 0;
    while i < |pages|
      invariant 0 <= i <= |pages|
      invariant seen == Concat(Concat(pages[..i], QuestionsOf), HeadingProbe)
      invariant FirstValid(seen, valid) == None
    {
      var found := HeadingQuestionScan(QuestionsOf(pages[i]), valid);
      PageStep(pages, i, HeadingProbe, valid);
      if found.Some? {
        return found;
      }
      seen := seen + Concat(QuestionsOf(pages[i]), HeadingProbe);
      i := i + 1;
    }
    assert pages[..i] == pages;
    email := None;
  }

  /** Pass 1, the loop over one page's questions: the heading test and the first answer. */
  method HeadingQuestionScan(questions: seq<Question>, valid: string -> bool) returns (email: Option<string>)
    ensures email == FirstValid(Concat(questions, HeadingProbe), valid)
  {
    ghost var seen: seq<string> := [];
    var j := 0;
    while j < |questions|
      invariant 0 <= j <= |questions|
      invariant seen == Concat(questions[..j], HeadingProbe)
      invariant FirstValid(seen, valid) == None
    {
      var questionText := Lower(HeadingOf(questions[j]));
      var answers := AnswersOf(questions[j]);
      assert questions[..j + 1] == questions[..j] + [questions[j]];
      ConcatSnoc(questions[..j], questions[j], HeadingProbe);
      if Contains(questionText, "email") && |answers| > 0 {
        var e := TextOf(answers[0]);
        FirstValidAppend(seen, [e], valid);
        if valid(e) {
          ConcatPrefix(questions[..j + 1], questions, HeadingProbe);
          FirstValidPrefix(seen + [e], Concat(questions, HeadingProbe), valid);
          return Some(e);
        }
        seen := seen + [e];
      }
      j := j + 1;
    }
    assert questions[..j] == questions;
    email := None;
  }

  /** Pass 2, the loop over pages. */
  method AnswerScan(pages: seq<Page>, valid: string -> bool) returns (email: Option<string>)
    ensures email == FirstValid(Concat(Concat(pages, QuestionsOf), AnswerTexts), valid)
  {
    ghost var seen: seq<string> := [];
    var i := 0;
    while i < |pages|
      invariant 0 <= i <= |pages|
      invariant seen == Concat(Concat(pages[..i], QuestionsOf), AnswerTexts)
      invariant FirstValid(seen, valid) == None
    {
      var found := AnswerQuestionScan(QuestionsOf(pages[i]), valid);
      PageStep(pages, i, AnswerTexts, valid);
      if found.Some? {
        return found;
      }
      seen := seen + Concat(QuestionsOf(pages[i]), AnswerTexts);
      i := i + 1;
    }
    assert pages[..i] == pages;
    email := None;
  }

  /** Pass 2, the loop over one page's questions. */
  method AnswerQuestionScan(questions: seq<Question>, valid: string -> bool) returns (email: Option<string>)
    ensures email == FirstValid(Concat(questions, AnswerTexts), valid)
  {
    ghost var seen: seq<string> := [];
    var j := 0;
    while j < |questions|
      invariant 0 <= j <= |questions|
      invariant seen == Concat(questions[..j], AnswerTexts)
      invariant FirstValid(seen, valid) == None
    {
      var found := AnswerTextScan(AnswersOf(questions[j]), valid);
      assert questions[..j + 1] == questions[..j] + [questions[j]];
      ConcatSnoc(questions[..j], questions[j], AnswerTexts);
      FirstValidAppend(seen, AnswerTexts(questions[j]), valid);
      if found.Some? {
        ConcatPrefix(questions[..j + 1], questions, AnswerTexts);
        FirstValidPrefix(seen + AnswerTexts(questions[j]), Concat(questions, AnswerTexts), valid);
        return found;
      }
      seen := seen + AnswerTexts(questions[j]);
      j := j + 1;
    }
    assert questions[..j] == questions;
    email := None;
  }

  /** Pass 2, the loop over one question's answers. */
  method AnswerTextScan(answers: seq<Answer>, valid: string -> bool) returns (email: Option<string>)
    ensures email == FirstValid(Concat(answers, AnswerText), valid)
  {
    ghost var seen: seq<string> := [];
    var k := 0;
    while k < |answers|
      invariant 0 <= k <= |answers|
      invariant seen == Concat(answers[..k], AnswerText)
      invariant FirstValid(seen, valid) == None
    {
      var text := TextOf(answers[k]);
      assert answers[..k + 1] == answers[..k] + [answers[k]];
      ConcatSnoc(answers[..k], answers[k], AnswerText);
      FirstValidAppend(seen, [text], valid);
      if valid(text) {
        ConcatPrefix(answers[..k + 1], answers, AnswerText);
        FirstValidPrefix(seen + [text], Concat(answers, AnswerText), valid);
        return Some(text);
      }
      seen := seen + [text];
      k := k + 1;
    }
    assert answers[..k] == answers;
    email := None;
  }

  /** Page i's items follow those of the pages before it. */
  lemma PageItems(pages: seq<Page>, i: int, f: Question -> seq<string>)
    requires 0 <= i < |pages|
    ensures Concat(Concat(pages[..i + 1], QuestionsOf), f) ==
            Concat(Concat(pages[..i], QuestionsOf), f) + Concat(QuestionsOf(pages[i]), f)
  {
    assert pages[..i + 1] == pages[..i] + [pages[i]];
    ConcatSnoc(pages[..i], pages[i], QuestionsOf);
    ConcatAppend(Concat(pages[..i], QuestionsOf), QuestionsOf(pages[i]), f);
  }

  /** One step of a page loop: page i's items follow those of the pages before it,
      and what is found by page i is what the whole scan finds. */
  lemma PageStep(pages: seq<Page>, i: int, f: Question -> seq<string>, valid: string -> bool)
    requires 0 <= i < |pages|
    ensures Concat(Concat(pages[..i + 1], QuestionsOf), f) ==
            Concat(Concat(pages[..i], QuestionsOf), f) + Concat(QuestionsOf(pages[i]), f)
    ensures FirstValid(Concat(Concat(pages[..i + 1], QuestionsOf), f), valid).Some? ==>
            FirstValid(Concat(Concat(pages, QuestionsOf), f), valid) ==
            FirstValid(Concat(Concat(pages[..i + 1], QuestionsOf), f), valid)
    ensures FirstValid(Concat(Concat(pages[..i], QuestionsOf), f), valid) == None ==>
            FirstValid(Concat(Concat(pages[..i + 1], QuestionsOf), f), valid) ==
            FirstValid(Concat(QuestionsOf(pages[i]), f), valid)
  {
    var before := Concat(Concat(pages[..i], QuestionsOf), f);
    var here := Concat(QuestionsOf(pages[i]), f);
    var upto := Concat(Concat(pages[..i + 1], QuestionsOf), f);
    var all := Concat(Concat(pages, QuestionsOf), f);
    PageItems(pages, i, f);
    FirstValidAppend(before, here, valid);
    ConcatPrefix(pages[..i + 1], pages, QuestionsOf);
    ConcatPrefix(Concat(pages[..i + 1], QuestionsOf), Concat(pages, QuestionsOf), f);
    if FirstValid(upto, valid).Some? {
      FirstValidPrefix(upto, all, valid);
    }
  }

  // ---------------------------------------------------------------------
  // Properties of the search
  // ---------------------------------------------------------------------

  /** A question is heading-matched and accepted exactly when pass 1 tests an accepted text for it. */
  lemma ProbeAccepted(q: Question, valid: string -> bool)
    ensures FirstValid(HeadingProbe(q), valid).Some? <==> HeadingCandidate(q, valid)
    ensures HeadingCandidate(q, valid) ==> FirstValid(HeadingProbe(q), valid) == Some(TextOf(AnswersOf(q)[0]))
  {
  }

  /** Pass 1 takes the first accepted heading-matched question, in page then question order,
      whatever valid answers appear earlier under other headings. */
  lemma {:induction false} HeadingPassFirstQuestion(r: SurveyResponse, k: int, valid: string -> bool)
    requires 0 <= k < |Questions(r)| && HeadingCandidate(Questions(r)[k], valid)
    requires forall j :: 0 <= j < k ==> !HeadingCandidate(Questions(r)[j], valid)
    ensures ExtractEmail(r, valid) == Some(TextOf(AnswersOf(Questions(r)[k])[0]))
  {
    var qs := Questions(r);
    NoCandidateBefore(qs, k, valid);
    assert qs[..k + 1] == qs[..k] + [qs[k]];
    ConcatSnoc(qs[..k], qs[k], HeadingProbe);
    FirstValidAppend(Concat(qs[..k], HeadingProbe), HeadingProbe(qs[k]), valid);
    ProbeAccepted(qs[k], valid);
    ConcatPrefix(qs[..k + 1], qs, HeadingProbe);
    FirstValidPrefix(Concat(qs[..k + 1], HeadingProbe), Concat(qs, HeadingProbe), valid);
  }

  /** Questions that pass 1 does not accept contribute nothing to it. */
  lemma {:induction false} NoCandidateBefore(qs: seq<Question>, k: int, valid: string -> bool)
    requires 0 <= k <= |qs|
    requires forall j :: 0 <= j < k ==> !HeadingCandidate(qs[j], valid)
    ensures FirstValid(Concat(qs[..k], HeadingProbe), valid) == None
  {
    if k > 0 {
      NoCandidateBefore(qs, k - 1, valid);
      assert qs[..k] == qs[..k - 1] + [qs[k - 1]];
      ConcatSnoc(qs[..k - 1], qs[k - 1], HeadingProbe);
      FirstValidAppend(Concat(qs[..k - 1], HeadingProbe), HeadingProbe(qs[k - 1]), valid);
      ProbeAccepted(qs[k - 1], valid);
    }
  }

  /** Pass 1 only looks at a question's first answer: if no question is a heading candidate,
      the result is pass 2's: the first accepted answer text in page, question, answer order,
      and null when there is none. */
  lemma Fallback(r: SurveyResponse, valid: string -> bool)
    requires forall j :: 0 <= j < |Questions(r)| ==> !HeadingCandidate(Questions(r)[j], valid)
    ensures ExtractEmail(r, valid) == FirstValid(Concat(Questions(r), AnswerTexts), valid)
    ensures ExtractEmail(r, valid) == None <==>
            forall k :: 0 <= k < |Concat(Questions(r), AnswerTexts)| ==> !valid(Concat(Questions(r), AnswerTexts)[k])
  {
    var qs := Questions(r);
    NoCandidateBefore(qs, |qs|, valid);
    assert qs[..|qs|] == qs;
    FirstValidNone(Concat(qs, AnswerTexts), valid);
  }

  /** Pass 1 wins over pass 2: a heading candidate anywhere decides the result. */
  lemma HeadingPassWins(r: SurveyResponse, valid: string -> bool)
    requires exists k :: 0 <= k < |Questions(r)| && HeadingCandidate(Questions(r)[k], valid)
    ensures ExtractEmail(r, valid) == HeadingPass(r, valid)
    ensures HeadingPass(r, valid).Some?
  {
    var qs := Questions(r);
    var k :| 0 <= k < |qs| && HeadingCandidate(qs[k], valid);
    var t := TextOf(AnswersOf(qs[k])[0]);
    assert t in HeadingProbe(qs[k]);
    ConcatMember(qs, HeadingProbe, t);
    var ts := Concat(qs, HeadingProbe);
    var n :| 0 <= n < |ts| && ts[n] == t;
    FirstValidNone(ts, valid);
  }

  /** Soundness: a result is accepted and is the text of some answer in the response. */
  lemma ExtractEmailSound(r: SurveyResponse, valid: string -> bool)
    requires ExtractEmail(r, valid).Some?
    ensures valid(ExtractEmail(r, valid).value)
    ensures IsAnswerText(r, ExtractEmail(r, valid).value)
  {
    var e := ExtractEmail(r, valid).value;
    var qs := Questions(r);
    var ts := if HeadingPass(r, valid).Some? then Concat(qs, HeadingProbe) else Concat(qs, AnswerTexts);
    FirstValidFound(ts, valid);
    var n :| 0 <= n < |ts| && ts[n] == e && valid(e);
    // e was tested for some question, and that question belongs to some page.
    var qi: int;
    if HeadingPass(r, valid).Some? {
      ConcatMember(qs, HeadingProbe, e);
      qi :| 0 <= qi < |qs| && e in HeadingProbe(qs[qi]);
      assert e == TextOf(AnswersOf(qs[qi])[0]);
    } else {
      ConcatMember(qs, AnswerTexts, e);
      qi :| 0 <= qi < |qs| && e in AnswerTexts(qs[qi]);
    }
    var question := qs[qi];
    ConcatMember(AnswersOf(question), AnswerText, e);
    assert exists a :: 0 <= a < |AnswersOf(question)| && e == TextOf(AnswersOf(question)[a]);
    var a :| 0 <= a < |AnswersOf(question)| && e == TextOf(AnswersOf(question)[a]);
    QuestionOnPage(PagesOf(r), question);
    var p, q :| 0 <= p < |PagesOf(r)| && 0 <= q < |QuestionsOf(PagesOf(r)[p])| &&
                QuestionsOf(PagesOf(r)[p])[q] == question;
    assert e == TextOf(AnswersOf(QuestionsOf(PagesOf(r)[p])[q])[a]);
  }

  /** A listed question sits at some position of some page. */
  lemma QuestionOnPage(pages: seq<Page>, question: Question)
    requires question in Concat(pages, QuestionsOf)
    ensures exists p, q :: 0 <= p < |pages| && 0 <= q < |QuestionsOf(pages[p])| &&
                           QuestionsOf(pages[p])[q] == question
  {
    ConcatMember(pages, QuestionsOf, question);
    var p :| 0 <= p < |pages| && question in QuestionsOf(pages[p]);
    var q :| 0 <= q < |QuestionsOf(pages[p])| && QuestionsOf(pages[p])[q] == question;
  }

  /** A response without pages, or whose pages hold no questions, yields null. */
  lemma NoPagesNoEmail(r: SurveyResponse, valid: string -> bool)
    requires forall p :: 0 <= p < |PagesOf(r)| ==> QuestionsOf(PagesOf(r)[p]) == []
    ensures ExtractEmail(r, valid) == None
  {
    EmptyPages(PagesOf(r));
  }

  lemma {:induction false} EmptyPages(pages: seq<Page>)
    requires forall p :: 0 <= p < |pages| ==> QuestionsOf(pages[p]) == []
    ensures Concat(pages, QuestionsOf) == []
  {
    if pages != [] {
      EmptyPages(pages[..|pages| - 1]);
    }
  }

  /** Pass 1 finds the same on two questions whose headings agree up to ASCII case
      and whose answers are the same: `strtolower` makes the heading test case-blind. */
  lemma HeadingTestIgnoresCase(q1: Question, q2: Question)
    requires |HeadingOf(q1)| == |HeadingOf(q2)|
    requires forall i :: 0 <= i < |HeadingOf(q1)| ==> LowerChar(HeadingOf(q1)[i]) == LowerChar(HeadingOf(q2)[i])
    requires AnswersOf(q1) == AnswersOf(q2)
    ensures HeadingMatches(q1) <==> HeadingMatches(q2)
    ensures HeadingProbe(q1) == HeadingProbe(q2)
  {
    LowerIgnoresCase(HeadingOf(q1), HeadingOf(q2));
  }

  /** Completeness: the search yields null exactly when no answer text anywhere in the
      response is accepted. */
  lemma NothingAcceptedIffNull(r: SurveyResponse, valid: string -> bool)
    ensures ExtractEmail(r, valid) == None <==> forall e :: IsAnswerText(r, e) ==> !valid(e)
  {
    if ExtractEmail(r, valid).Some? {
      ExtractEmailSound(r, valid);
    } else {
      var ts := Concat(Questions(r), AnswerTexts);
      FirstValidNone(ts, valid);
      forall e | IsAnswerText(r, e) ensures !valid(e) {
        var p, q, a :| 0 <= p < |PagesOf(r)| && 0 <= q < |QuestionsOf(PagesOf(r)[p])| &&
                       0 <= a < |AnswersOf(QuestionsOf(PagesOf(r)[p])[q])| &&
                       e == TextOf(AnswersOf(QuestionsOf(PagesOf(r)[p])[q])[a]);
        var question := QuestionsOf(PagesOf(r)[p])[q];
        ConcatMember(PagesOf(r), QuestionsOf, question);
        assert e in AnswerText(AnswersOf(question)[a]);
        ConcatMember(AnswersOf(question), AnswerText, e);
        ConcatMember(Questions(r), AnswerTexts, e);
        var k :| 0 <= k < |ts| && ts[k] == e;
      }
    }
  }

  // ---------------------------------------------------------------------
  // Missing keys and their defaults
  // ---------------------------------------------------------------------

  /** What pass 1 tests on one page. */
  function PageProbes(p: Page): seq<string> { Concat(QuestionsOf(p), HeadingProbe) }

  /** What pass 2 tests on one page. */
  function PageTexts(p: Page): seq<string> { Concat(QuestionsOf(p), AnswerTexts) }

  lemma FilledQuestionAlike(q: Question)
    ensures HeadingProbe(FilledQuestion(q)) == HeadingProbe(q)
    ensures AnswerTexts(FilledQuestion(q)) == AnswerTexts(q)
  {
    ConcatPointwise(AnswersOf(FilledQuestion(q)), AnswerText, AnswersOf(q), AnswerText);
  }

  lemma FilledPageAlike(p: Page)
    ensures PageProbes(FilledPage(p)) == PageProbes(p)
    ensures PageTexts(FilledPage(p)) == PageTexts(p)
  {
    var qs := QuestionsOf(p);
    forall i | 0 <= i < |qs|
      ensures HeadingProbe(FilledQuestion(qs[i])) == HeadingProbe(qs[i])
      ensures AnswerTexts(FilledQuestion(qs[i])) == AnswerTexts(qs[i])
    {
      FilledQuestionAlike(qs[i]);
    }
    ConcatPointwise(QuestionsOf(FilledPage(p)), HeadingProbe, qs, HeadingProbe);
    ConcatPointwise(QuestionsOf(FilledPage(p)), AnswerTexts, qs, AnswerTexts);
  }

  /** `?? default`: a missing key behaves exactly as that key present with the default
      (`[]` for pages, questions and answers, `""` for heading and text), for both passes. */
  lemma MissingKeysAsDefaults(r: SurveyResponse, valid: string -> bool)
    ensures HeadingPass(Filled(r), valid) == HeadingPass(r, valid)
    ensures AnswerPass(Filled(r), valid) == AnswerPass(r, valid)
    ensures ExtractEmail(Filled(r), valid) == ExtractEmail(r, valid)
  {
    var ps := PagesOf(r);
    var fs := PagesOf(Filled(r));
    ConcatConcat(ps, QuestionsOf, HeadingProbe, PageProbes);
    ConcatConcat(fs, QuestionsOf, HeadingProbe, PageProbes);
    ConcatConcat(ps, QuestionsOf, AnswerTexts, PageTexts);
    ConcatConcat(fs, QuestionsOf, AnswerTexts, PageTexts);
    forall i | 0 <= i < |ps|
      ensures PageProbes(fs[i]) == PageProbes(ps[i])
      ensures PageTexts(fs[i]) == PageTexts(ps[i])
    {
      FilledPageAlike(ps[i]);
    }
    ConcatPointwise(fs, PageProbes, ps, PageProbes);
    ConcatPointwise(fs, PageTexts, ps, PageTexts);
  }
}
