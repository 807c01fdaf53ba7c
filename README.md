# QuestUp: a Dafny model of the exam-generation client

QuestUp is a single-page web client for Thai school pupils. The pupil signs
in, uploads reference documents, picks a grade, a language and a number of
questions, and gets a generated multiple-choice exam. They take it one
question at a time and then get an analysis of their strengths and
weaknesses. They can then ask for a new exam aimed at those weaknesses.

The project models three parts of the client:

- `GeminiService` (`gemini_service.dfy`) is the service layer. It covers:
  - the retry wrapper, which retries on HTTP 429 and 503 with a doubling
    back-off;
  - the API-key guard;
  - assembly of the generation request: inline file parts, the targeting
    sentence and the exam prompt template;
  - normalisation of the reply into questions with ids;
  - the answer history sent for analysis.

  The generative-model SDK call is a function parameter `respond`. Its
  arguments are the attempt number and what is sent: the request for
  generation, and the answer history for analysis. The clock that `Date.now()`
  reads is a parameter `clock`. `JSON.parse` is an abstract decoder
  `decode`.
- `QuizComponent` (`quiz.dfy`) is the quiz component, a class `Quiz`. It
  holds:
  - the current index;
  - one answer slot per question;
  - the selection;
  - the answered flag;
  - the running score.

  Its invariant says:
  - the score is always the number of recorded answers that are correct;
  - nothing after the current question is answered.
- `AppShell` (`app.dfy`) is the top-level view state, a class `App`. It
  holds:
  - the user;
  - the view;
  - the exam session;
  - the loading flag;
  - the answers handed to the analysis view;
  - the session-storage entry for the signed-in user (`storedUser`).

  Alerts are returned as values.

The other modules are:

- `Text` (`text.dfy`) models the JavaScript string built-ins these parts
  use: `includes` (as `IsInfix`), `split`, `join`, `trim`, and the decimal
  rendering of numbers in template literals. Each comes with its laws.
  `StartsWith` is a predicate used only to state properties; the client
  itself never calls `startsWith`.
- `Types` (`types.dfy`) holds the records.
- `Wrappers` (`wrappers.dfy`) holds `Option` and `Result`.

An async function that throws is modelled as returning a `Result` failure
carrying an `Error(status, message)`. A call that goes through the retry
wrapper returns a `Run`, which records:

- the outcome;
- how many times the wrapped call was made;
- the sleeps scheduled between attempts.

## Model

| member | source | states |
|---|---|---|
| GeminiService.WithRetry | services/geminiService.ts:8-19 | The wrapped call is made between 1 and max(retries,0)+1 times. Every attempt before the last failed with status 429 or 503. An earlier stop happens only on a success or another error. The result is the last attempt's outcome. The sleeps are delay, 2·delay, 4·delay, … with one fewer sleep than attempts. |
| GeminiService.ScheduleAt | services/geminiService.ts:14-15 | The k-th scheduled sleep is delay·2^k. |
| GeminiService.ScheduleSum | services/geminiService.ts:14-15 | n back-off sleeps add up to delay·(2^n − 1). |
| GeminiService.RetryTotalDelay | services/geminiService.ts:8-19 | The total time a retried call sleeps is delay·(2^(attempts−1) − 1). |
| GeminiService.RetryReturnsFirstSuccess | services/geminiService.ts:9-10 | If the first m attempts hit rate limits, m is within the budget, and attempt m succeeds, then the wrapper returns that success after m+1 attempts. |
| GeminiService.NonRetryableRethrown | services/geminiService.ts:12-17 | A first failure whose status is not 429 or 503 is rethrown at once. There is no sleep and no second call. |
| GeminiService.RetryBudgetExhausted | services/geminiService.ts:12-17 | If every attempt hits a rate limit, the wrapper makes retries+1 calls and rethrows the last error. |
| GeminiService.DefaultSchedulePrefix | services/geminiService.ts:8 | With the default delay of 2000 ms, the first n ≤ 3 sleeps are a prefix of [2000, 4000, 8000]. They total at most 14000 ms, and exactly 14000 ms only when all three are taken. |
| GeminiService.DefaultRetrySchedule | services/geminiService.ts:8 | With the defaults (3 retries, 2000 ms) there are at most 4 attempts. The sleeps are a prefix of [2000, 4000, 8000] and total at most 14 s. |
| GeminiService.TwoRateLimitsThenSuccess | services/geminiService.ts:8-19 | Two 429/503 failures and then a success give that success after 3 attempts and sleeps of 2000 and 4000 ms. |
| GeminiService.StripDataUriSegments | services/geminiService.ts:39 | Data without a comma is sent unchanged. Otherwise the payload is the text between the first and second commas, or the whole data when that text is empty. |
| GeminiService.StripDataUriOfDataUri | services/geminiService.ts:39 | For a data URI `header,payload` with a comma-free, non-empty payload, exactly the payload is sent. |
| GeminiService.FileParts | services/geminiService.ts:37-42 | There is one inline part per file, in file order. It carries the file's mime type and its stripped payload. |
| GeminiService.TargetingNamesWeakTopics | services/geminiService.ts:44-46 | The targeting sentence starts with the weak-topics lead exactly when a non-empty topic list is given. It is then the lead followed by the topics joined with ", ", and it names every topic. Otherwise it is the generic sentence. |
| GeminiService.ExamPromptEmbedsParameters | services/geminiService.ts:48-57 | The prompt opens with the curriculum-expert role line and the grade. It contains the task line with the targeting sentence and the language line. It contains the count line, with the count followed directly by the line break and the fixed instructions. It contains the Thai-explanation rule naming the grade. |
| GeminiService.ExamPromptDeterminesCount | services/geminiService.ts:51 | Prompts built with the same grade, language and targeting but different counts are different. The prompt determines the number of questions asked for. |
| GeminiService.RequestPartOrder | services/geminiService.ts:65 | The request has one part per file, in order, then exactly one text part. That text part is the exam prompt built from the grade, language, count and targeting sentence. |
| GeminiService.QuestionIdInjective | services/geminiService.ts:89 | Ids `q-<stamp>-<index>` are equal only when both the time stamp and the index are equal. |
| GeminiService.AssignIds | services/geminiService.ts:89 | Each decoded record becomes one question, in order. The question keeps the record's text, options, correct index, explanation and topic. Its id is `q-<clock(i)>-<i>`, which replaces any id the record carried. |
| GeminiService.AssignIdsDistinct | services/geminiService.ts:89 | The questions of one reply have pairwise distinct ids, whatever the clock reads. |
| GeminiService.BlankReplyGivesNoQuestions | services/geminiService.ts:87-88 | A missing reply text, or one that is all white space, gives an empty question list. |
| GeminiService.NormaliseQuestionsFailure | services/geminiService.ts:87-89 | Normalisation fails exactly when the trimmed text is non-empty and the decoder rejects it. The error has the decoder's message and no status, so it is never retried. |
| GeminiService.NormaliseQuestionsIdsDistinct | services/geminiService.ts:87-89 | Every question list normalisation returns has distinct ids. |
| GeminiService.GenerateExamAttempts | services/geminiService.ts:32-35 | The SDK is called zero times exactly when the key is missing or empty. The call then fails with `API_KEY_MISSING`. Otherwise it is called at most 4 times. |
| GeminiService.GenerateExamIdsDistinct | services/geminiService.ts:59-90 | A successful generation returns questions with pairwise distinct ids. |
| GeminiService.MalformedReplyNotRetried | services/geminiService.ts:87-90 | If the first reply is non-blank and does not decode, the generation fails with the decoder's error after one attempt, with no sleep. |
| GeminiService.HasApiKey | services/geminiService.ts:32-35 | A key counts as present when it is defined and not empty. Its use is stated by GenerateExamAttempts and AnalyzeExamOutcome. |
| GeminiService.StripDataUri | services/geminiService.ts:39 | The payload sent for a file. StripDataUriSegments and StripDataUriOfDataUri state its behaviour. |
| GeminiService.TargetingText | services/geminiService.ts:44-46 | The task sentence. TargetingNamesWeakTopics states its behaviour. |
| GeminiService.PromptLines | services/geminiService.ts:48-57 | The lines of the prompt template. ExamPromptEmbedsParameters and ExamPromptDeterminesCount state what they hold. |
| GeminiService.ExamPrompt | services/geminiService.ts:48-57 | The prompt text. ExamPromptEmbedsParameters and ExamPromptDeterminesCount state its behaviour. |
| GeminiService.BuildRequest | services/geminiService.ts:37-65 | The request contents. RequestPartOrder states its behaviour. |
| GeminiService.NormaliseQuestions | services/geminiService.ts:87-89 | Turns the reply text into questions. BlankReplyGivesNoQuestions, NormaliseQuestionsFailure and NormaliseQuestionsIdsDistinct state its behaviour. |
| GeminiService.GenerationAttempt | services/geminiService.ts:59-90 | One call of the retried closure: an SDK error passes through, and a reply is normalised. SdkStatusRetried, MalformedReplyNotRetried and GenerateExamIdsDistinct state its behaviour. |
| GeminiService.SdkStatusRetried | services/geminiService.ts:59-90 | An attempt of the generator is retryable exactly when that attempt's SDK call failed with 429 or 503. An SDK failure reaches the retry wrapper unchanged, status included. So the retry lemmas apply to the SDK's own outcomes. |
| GeminiService.GenerateExamFromFile | services/geminiService.ts:24-91 | The exported generator. GenerateExamAttempts, GenerateExamIdsDistinct and MalformedReplyNotRetried state its behaviour, and the retry lemmas apply to its run. |
| GeminiService.AnalysisAttempt | services/geminiService.ts:116-139 | One call of the analysis closure: an SDK error passes through, a blank reply gives the empty object, and other text is decoded. AnalysisSdkStatusRetried, AnalyzeExamOutcome and AnalysisDecodedReply state its behaviour. |
| GeminiService.AnalysisSdkStatusRetried | services/geminiService.ts:116-139 | An analysis attempt is retryable exactly when its SDK call failed with 429 or 503. An SDK failure passes through unchanged. |
| GeminiService.AnalysisDecodedReply | services/geminiService.ts:137-138 | With a key and a non-blank first reply, the analysis is settled in one attempt with no sleep. A decoded object is returned as it is. A decoder failure becomes an error with the decoder's message and no status, and is not retried. |
| GeminiService.AnalyzeExamResults | services/geminiService.ts:96-140 | The exported analysis. AnalyzeExamOutcome states its behaviour. |
| GeminiService.History | services/geminiService.ts:104-107 | The history has one entry per question, with the question's topic. An entry is correct exactly when an answer is recorded at that position and it equals the correct index. |
| GeminiService.AnalyzeExamOutcome | services/geminiService.ts:96-139 | The analysis calls the SDK zero times exactly when the key is missing, and then fails with `API_KEY_MISSING`. Otherwise it is called at most 4 times. A first reply with no text, or with text that is all white space, gives the empty object after one attempt. |
| QuizComponent.CorrectCountAtMostAnswered | components/Quiz.tsx:20-32 | The number of correct answers never exceeds the number of answered questions. |
| QuizComponent.CorrectCountAfterAnswer | components/Quiz.tsx:25-31 | Recording an answer in an empty slot raises the correct count by one exactly when it is the correct option. This is the step `handleSelect` takes. |
| QuizComponent.NoAnswers | components/Quiz.tsx:13 | Gives n answer slots, all unanswered. |
| QuizComponent.NoAnswersScoreZero | components/Quiz.tsx:13-16 | With no answers recorded the correct count is 0, matching the initial score. |
| QuizComponent.AnsweredCountBound | components/Quiz.tsx:34-42 | If nothing after the current question is answered, at most currentIndex+1 questions are answered. |
| QuizComponent.CorrectCountMatchesHistory | components/Quiz.tsx:40 | The score the quiz reports equals the number of correct entries in the history that the analysis sends. |
| QuizComponent.AnswerTwoQuestions | components/Quiz.tsx:20-42 | Two questions: a correct answer, then a second click that is ignored, then a wrong answer. Moving on from the first question reports nothing. Finishing the second reports both answers with a score of 1. |
| QuizComponent.Quiz.constructor | components/Quiz.tsx:12-16 | The quiz starts at question 0 with every slot unanswered, nothing selected, not answered, and score 0. |
| QuizComponent.Quiz.HandleSelect | components/Quiz.tsx:20-32 | Once the current question is answered, nothing changes. Otherwise the choice is selected and recorded in the current slot only, and the score goes up by one exactly when it is correct. The score stays equal to the number of correct recorded answers. |
| QuizComponent.Quiz.HandleNext | components/Quiz.tsx:34-42 | Before the last question: the quiz moves on one question, the selection is cleared, and the new question is unanswered. On the last question: the state is unchanged and the completion carries all answers and the score. |
| AppShell.AlertFor | App.tsx:65-67 | The alert for a failed start. AlertForServiceErrors and AlertForApiKeyMessages state its behaviour. |
| AppShell.StartFailureMessage | App.tsx:47-49 | The message a failed start ends with: "Could not generate questions" for an empty list, otherwise the thrown error's message. It is used in the contract of HandleStartExam. |
| AppShell.NewSession | App.tsx:51-60 | The session a successful start records: the user's id, the parameters, the questions, score 0 and the weak topics. It is used in the contract of HandleStartExam. |
| AppShell.AlertForServiceErrors | App.tsx:48-68 | A missing key (`API_KEY_MISSING`) and an empty question list both get the retry-later alert, not the configuration alert: neither message contains "API Key". |
| AppShell.AlertForApiKeyMessages | App.tsx:65-66 | Any error message containing "API Key" gets the configuration alert. |
| AppShell.App.constructor | App.tsx:12-16 | The app starts signed out, in the login view, with no session, not loading, and no answers. |
| AppShell.App.RestoreStoredUser | App.tsx:18-29 | A stored user entry that is present, not empty and not "undefined" is decoded. A result is set as the user and the setup view is shown. A parse error removes the entry and changes nothing else. |
| AppShell.App.HandleLogin | App.tsx:31-35 | Signs the user in, stores their encoding, and shows the setup view. |
| AppShell.App.HandleLogout | App.tsx:37-41 | Signs out, removes the stored entry, and shows the login view. The session is kept. |
| AppShell.App.HandleStartExam | App.tsx:43-72 | Without a user nothing changes. A non-empty question list starts a session for that user, with score 0, the given parameters and weak topics, every answer cleared, and the quiz view. An empty list or an error leaves session, view and answers as they were and returns the alert for its message. Loading is off afterwards. |
| AppShell.App.HandleCompleteQuiz | App.tsx:74-80 | Keeps the final answers, records the final score in the session if there is one, and shows the analysis view. |
| AppShell.App.HandleRetryWithWeaknesses | App.tsx:82-86 | With a session, it starts again with that session's files, grade, language and count, aimed at the given weaknesses. Without one nothing changes. |
| AppShell.App.ResetToSetup | App.tsx:88-91 | Drops the session and shows the setup view. |
| AppShell.ReloadAfterLogin | App.tsx:18-35 | A user who signed in is signed in again, in the setup view, after a reload, provided their stored encoding decodes back to them. |
| AppShell.ExamRound | App.tsx:43-91 | Sign-in, a successful start, completion and reset pass through the quiz view and the analysis view, and end with no session. |
| Text.Split | services/geminiService.ts:39 | There is at least one segment, and no segment contains the separator. JoinSplit states that the segments rebuild the string. |
| Text.Join | services/geminiService.ts:45 | The weak topics joined with ", ". JoinContainsEach states that every topic occurs in the result. |
| Text.Trim | services/geminiService.ts:87 | Trimming as TrimStart followed by TrimEnd. TrimEmptyIffBlank states when the result is empty. |
| Text.IntToString | services/geminiService.ts:51 | The rendering of the count is non-empty and starts with a minus sign exactly when the count is negative. |
| Text.IntToStringInjective | services/geminiService.ts:51 | Different counts render differently. |
| Text.JoinSplit | services/geminiService.ts:39 | Joining the comma segments of a string with "," gives back the string. |
| Text.SplitAtFirst | services/geminiService.ts:39 | Splitting at the first separator gives the text before it, then the segments of the rest. |
| Text.JoinContainsEach | services/geminiService.ts:45 | Every topic occurs in the joined list. |
| Text.TrimStart | services/geminiService.ts:87 | Removes exactly the leading ECMAScript white space and line terminators. The result is a suffix of the input and does not start with white space. |
| Text.TrimEnd | services/geminiService.ts:87 | Removes exactly the trailing white space. The result is a prefix of the input and does not end with white space. |
| Text.TrimEmptyIffBlank | services/geminiService.ts:87-88 | The trimmed text is empty exactly when the text is all white space. |
| Text.NatToString | services/geminiService.ts:89 | The rendering of a time stamp or index is a non-empty string of decimal digits, with no leading zero for numbers of two or more digits. |
| Text.DigitsValueOfNatToString | services/geminiService.ts:89 | Reading back the decimal rendering of a time stamp or index gives the number. |
| Text.NatToStringInjective | services/geminiService.ts:89 | Different numbers render differently. |

## Left out

- The generative-model SDK becomes the `respond` parameter. Left out with
  it:
  - the model name, the thinking budget and the response schema;
  - the creation of a client per attempt.
- The `setTimeout` sleep is recorded as the scheduled delays of a `Run`;
  no time passes.
- `JSON.parse` becomes the `decode` parameter. So:
  - a decoded record is trusted as it is;
  - only the question fields the client carries are kept;
  - a reply that parses but is not an array makes `data.map` throw a
    `TypeError` without a status. The model counts that as a `decode`
    failure, which is equally not retried.
- `JSON.stringify` becomes the `encode` parameter of `HandleLogin`. The
  analysis prompt is reduced to the history handed to `respond`: the
  fixed Thai lines around it are not modelled.
- `console.warn` and `console.error` are dropped. The browser `alert` is
  the returned value of `HandleStartExam`.
- Rendering is left out: the loading overlay, the progress percentage and
  the question and option display. So are these components:
  - the setup form;
  - the login form;
  - the header;
  - the analysis view;
  - the build configuration.
- `types.ts` is not part of this model. The grade and language literals
  (`GradeName`, `LanguageName`) and the record shapes are inferred from
  their uses.
- Text.NatToString: renders every number in plain decimal. JavaScript
  switches to exponent notation above about 10^21, which a millisecond
  clock does not reach.
- QuizComponent.Quiz.constructor: requires a non-empty question list. An
  empty list would make `handleSelect` read a missing question. The app
  only shows the quiz with a non-empty session, and `Valid` of `App`
  records that.
- React's batching of state updates and handlers racing across renders are
  not modelled. `HandleStartExam` receives the generator's outcome and runs
  atomically, so the interleaving during the `await` is not modelled.
- GeminiService.NormaliseQuestions: a blank reply short-cuts to an empty
  list without calling the decoder. This stands for `JSON.parse("[]")`.
  Likewise `AnalysisAttempt` gives no fields for `JSON.parse("{}")`.
- The code classifies no 401/403 failures and does not clamp the count:
  - only 429 and 503 are retried;
  - every other error is rethrown as it is;
  - the count is passed through unchecked.
