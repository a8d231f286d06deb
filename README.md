# HoneyPipes webhook controller, modelled in Dafny

HoneyPipes receives SurveyMonkey webhooks. For a completed response it fetches
the response details, picks out the respondent's email address, and creates a
person with that address in the Attio CRM. All of the decision logic is in
`WebhookController`:

- `extractEmailFromResponse` searches the decoded response in two passes. Pass 1
  goes through the questions, page by page. It takes the first question whose
  lower-cased heading contains `email` and that has an answer, and whose first
  answer's text is a valid email. Pass 2 runs only when pass 1 finds nothing. It
  takes the first valid answer text anywhere, in page, question and answer order.
  If neither pass finds one, the result is null.
- `handleSurveyMonkey` is a fixed chain of gates: missing data, another event
  type, fetch failure, no email, CRM failure, success. Each gate returns its own
  status and JSON body. A connection exception from either HTTP call gives
  "Processing failed".

Files:

- `php.dfy` (module `Php`): PHP's falsiness of `!$x` on null and strings (null,
  `""` and `"0"` are falsy), `strtolower` on ASCII, and `str_contains`.
- `survey.dfy` (module `SurveyData`): the decoded response as pages, questions
  and answers. Every key the controller reads with `?? default` is an `Option`,
  and accessors supply the same default (`[]` or `""`). `Filled` writes every
  missing key out with that default.
- `extraction.dfy` (module `EmailExtraction`): the specification functions
  `HeadingPass`, `AnswerPass` and `ExtractEmail`, written over the flattened
  question list (`Concat`) and a first-match search (`FirstValid`). It also holds
  the controller's loops as methods proved equal to those functions, and lemmas
  for the ordering, fallback and soundness properties.
- `webhook.dfy` (module `Webhook`): `HandleSurveyMonkey`, a pure function. Its
  inputs are the three webhook fields, the survey provider's reply (a status and
  the decoded body, or a connection exception) and the CRM's reply (a status, or
  a connection exception). Its output is the status code, the JSON body and the
  outbound calls made, in order. After it come one lemma per gate and lemmas
  across the gates.
- `scenarios.dfy` (module `Scenarios`): small one-page responses. They cover a
  heading match in mixed case, an email question beating an earlier valid
  answer, the fallback pass, and the end-to-end success with a CRM reply of 201.

`filter_var($s, FILTER_VALIDATE_EMAIL)` is the parameter `valid: string -> bool`
everywhere. Callers may supply any validator, so every property holds for any
validation rule. The test in the PHP is the truthiness of `filter_var`'s result,
so `valid(s)` means "filter_var accepts s and s is truthy". The two differ only
for `""` and `"0"`, which the real routine never accepts (neither has an `@`).
`NoEmailIffNothingFound` states what follows when the validator rejects both.

Details of the code that the model keeps as written:

- A field equal to `"0"` counts as missing, since `!"0"` is true in PHP.
- Only exceptions thrown inside the `try` block (lines 35-99) become
  "Processing failed". The model has two such throws, the two connection failures.
- HTTP success means a 2xx status (Laravel's `successful()`), so a CRM reply of
  201 is a success.

## Model

| member | source | states |
|---|---|---|
| EmailExtraction.ExtractEmailFromResponse | app/Http/Controllers/WebhookController.php:102-138 | The two-pass scan returns exactly `ExtractEmail`: pass 1's result if it has one, otherwise pass 2's. A non-null result is accepted by the validator and is the text of some answer in the response. |
| EmailExtraction.HeadingScan | app/Http/Controllers/WebhookController.php:105-121 | The page loop of pass 1 returns the first accepted first-answer text of a heading-matched question, over all pages' questions in order, or null. |
| EmailExtraction.HeadingQuestionScan | app/Http/Controllers/WebhookController.php:106-120 | The question loop of pass 1 applies the heading test (lower-cased heading contains "email", answers non-empty) to one page's questions. It returns the first accepted first-answer text, or null. |
| EmailExtraction.AnswerScan | app/Http/Controllers/WebhookController.php:124-135 | The page loop of pass 2 returns the first accepted answer text over all pages, questions and answers in order, or null. |
| EmailExtraction.AnswerQuestionScan | app/Http/Controllers/WebhookController.php:125-134 | The question loop of pass 2 returns the first accepted answer text among one page's questions, or null. |
| EmailExtraction.AnswerTextScan | app/Http/Controllers/WebhookController.php:128-133 | The answer loop of pass 2 returns the first accepted text among one question's answers, or null. A missing text is `""`. |
| EmailExtraction.HeadingPassFirstQuestion | app/Http/Controllers/WebhookController.php:105-121 | Suppose question k, in page then question order, is the first one whose heading matches and whose first answer is accepted. Then extraction returns that first answer's text, whatever valid answers come earlier under other headings. |
| EmailExtraction.HeadingPassWins | app/Http/Controllers/WebhookController.php:105-124 | If any question passes pass 1, pass 1 finds a result, and that result is the extraction result: pass 2 is never consulted. |
| EmailExtraction.Fallback | app/Http/Controllers/WebhookController.php:123-137 | If no question passes pass 1, the result is the first accepted text in page, question, answer order. It is null exactly when no answer text is accepted. |
| EmailExtraction.ProbeAccepted | app/Http/Controllers/WebhookController.php:111-117 | Pass 1 looks only at the first answer of a question. It finds something for that question exactly when the heading matches, an answer exists and that first answer is accepted. |
| EmailExtraction.ExtractEmailSound | app/Http/Controllers/WebhookController.php:113-131 | A non-null extraction result is accepted by the validator and equals the (defaulted) text of an answer at some page, question and answer position. |
| EmailExtraction.NoPagesNoEmail | app/Http/Controllers/WebhookController.php:105-106 | A response with no `pages` key, no pages, or pages without questions yields null. |
| EmailExtraction.FirstValidFound | app/Http/Controllers/WebhookController.php:128-132 | The first-match search returns an element of its input that is accepted, and no element before it is accepted. |
| EmailExtraction.FirstValidNone | app/Http/Controllers/WebhookController.php:128-137 | The first-match search is null exactly when no element is accepted. |
| EmailExtraction.NothingAcceptedIffNull | app/Http/Controllers/WebhookController.php:102-138 | Extraction returns null exactly when no answer text, at any page, question and answer position, is accepted by the validator. |
| Php.Contains | app/Http/Controllers/WebhookController.php:111 | `str_contains` is true exactly when the needle occurs at some position of the haystack. |
| Php.Lower | app/Http/Controllers/WebhookController.php:107 | `strtolower` keeps the length and lowers each character on its own. |
| Php.LowerChar | app/Http/Controllers/WebhookController.php:107 | The case table (A-Z move up by 32, every other character is kept) is the definition of `strtolower` on one character. The proved fact is that no upper-case ASCII letter remains. |
| Php.LowerIgnoresCase | app/Http/Controllers/WebhookController.php:107 | Strings that agree up to ASCII case lower to the same string. |
| EmailExtraction.HeadingTestIgnoresCase | app/Http/Controllers/WebhookController.php:107-117 | Two questions whose headings agree up to ASCII case, and whose answers are the same, pass or fail the heading test together. Pass 1 tests the same text for both. |
| EmailExtraction.MissingKeysAsDefaults | app/Http/Controllers/WebhookController.php:105-130 | Each `?? default` makes a missing key behave exactly like the key present with its default (`[]` for pages, questions and answers, `""` for heading and text). Writing every missing key out this way (`Filled`) leaves pass 1, pass 2 and the extraction result unchanged. |
| Webhook.MissingDataRejected | app/Http/Controllers/WebhookController.php:19-26 | If any of the three fields is PHP-falsy, the outcome is 400 "Missing required data" with no outbound call. This holds whatever the event type, because this check comes first. |
| Webhook.OtherEventIgnored | app/Http/Controllers/WebhookController.php:28-32 | With all fields present and an event type other than `response_completed`, the outcome is 200 "Event ignored" with no outbound call. |
| Webhook.FetchFailureReported | app/Http/Controllers/WebhookController.php:34-45 | A non-2xx fetch gives 500 "Failed to fetch response". A fetch that throws gives 500 "Processing failed". Either way the only call is the details fetch for that survey and response, and the CRM is not called. |
| Webhook.NoEmailReported | app/Http/Controllers/WebhookController.php:47-57 | When extraction yields a falsy value, the outcome is 400 "No email found" after the fetch alone, and the CRM is not called. |
| Webhook.CrmReplyDecides | app/Http/Controllers/WebhookController.php:59-92 | With an email extracted, the calls are the fetch and then one CRM post. Its payload holds exactly one address entry, the extracted email. A non-2xx CRM reply gives 500 "Failed to create person in Attio", a throw gives 500 "Processing failed", and 2xx gives 200 "Success". |
| Webhook.CrmOnlyWithExtractedEmail | app/Http/Controllers/WebhookController.php:50-74 | A CRM call happens only after the gates and a successful fetch. Its payload is the one-entry payload of the extraction result, which is truthy, accepted by the validator, and the text of an answer in the fetched response. |
| Webhook.CallsInOrder | app/Http/Controllers/WebhookController.php:34-74 | At most two calls are made. A call is made exactly when the first two gates pass. The first call is the details fetch for the webhook's ids, and a second call, if any, is the CRM post. |
| Webhook.SuccessIff | app/Http/Controllers/WebhookController.php:23-92 | The body is "Success" exactly when the fields are present, the event is `response_completed`, the fetch returns 2xx, extraction yields a truthy email and the CRM returns 2xx. |
| Webhook.ResponseTable | app/Http/Controllers/WebhookController.php:11-100 | Every outcome is one of the seven status and body pairs the controller returns. |
| Webhook.NoEmailIffNothingFound | app/Http/Controllers/WebhookController.php:50-57 | For a validator that rejects `""` and `"0"`, as `filter_var` does, the "No email found" outcome occurs exactly when extraction returns null. |
| Scenarios.HeadingExample | app/Http/Controllers/WebhookController.php:105-121 | A single question whose heading contains "email" in any case, with an accepted answer, yields that answer. |
| Scenarios.HeadingBeatsEarlierAnswer | app/Http/Controllers/WebhookController.php:105-137 | An accepted answer under an earlier non-email heading loses to a later email question's accepted answer. |
| Scenarios.FallbackExample | app/Http/Controllers/WebhookController.php:124-135 | With no email heading, the first accepted answer is taken, and an earlier rejected one is skipped. |
| Scenarios.SuccessExample | app/Http/Controllers/WebhookController.php:11-92 | A completed webhook whose response has one email question, with a CRM reply of 201, ends in 200 "Success". The calls are the details fetch and then the post of that email. |
| Scenarios.EmailFirstMatches | app/Http/Controllers/WebhookController.php:107-111 | Any heading that starts with "Email", such as "Email Address", contains "email" once lowered, so it passes the text part of the heading test. |

## Left out

- Outbound HTTP: the `Http` facade, bearer tokens from configuration, the URLs and JSON decoding of the replies (lines 36-37, 47, 73-74). Each reply is an input to the model: a status with the decoded body, or a connection exception.
- `filter_var(..., FILTER_VALIDATE_EMAIL)` (lines 116, 130): the routine is not part of this model. It is the `valid` parameter.
- All `Log::` calls, which do not affect the outcome.
- `Request::input` and its dot-path lookup (lines 19-21). The three fields are optional strings. Non-string JSON values (numbers, booleans, arrays) in these fields, in headings or in answer texts are not modelled.
- JSON shapes the decoder can produce but the model does not: a body that is not an object, `answers` as an object without the key `0`, and so on. In PHP some of these raise an `Error`, which `catch (\Exception $e)` does not catch.
- Exceptions other than a connection failure of either call are not modelled.
- `strtolower` is modelled as ASCII-only lowering, which is PHP 8.2's behaviour. Older PHP versions lower by locale.
- The controller's single method with two nested `foreach` passes is split into one method per loop level (`HeadingScan`, `HeadingQuestionScan`, `AnswerScan`, `AnswerQuestionScan`, `AnswerTextScan`). The order of the scans and the points of early return are the same.
- Nothing in `routes/web.php` is modelled: route registration and the two health endpoints, which use a database probe, the clock and the environment name.
