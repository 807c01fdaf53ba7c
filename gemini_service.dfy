/** The generation service: the retry combinator, the assembly of a
    generation request, the normalisation of the reply into questions, and the
    answer history sent for analysis. The SDK call is an oracle `respond`
    giving the outcome of its k-th invocation (k = 0, 1, ...), `Date.now()` is
    a clock parameter and `JSON.parse` an abstract decoder. */
module GeminiService {
  import opened Wrappers
  import opened Text
  import opened Types

  // =====================================================================
  // withRetry
  // =====================================================================

  const DefaultRetries: int := 3
  const DefaultDelay: int := 2000

  /** The failures `withRetry` tries again: status 429 or 503. */
  predicate IsRetryable<T>(outcome: Result<T, Error>) {
    outcome.Failure? && (outcome.error.status == Some(429) || outcome.error.status == Some(503))
  }

  /** What one use of the combinator did: the value returned or the error
      rethrown, how many times the wrapped function was called, and the
      delays slept between calls, in order. */
  datatype Run<T> = Run(result: Result<T, Error>, attempts: nat, delays: seq<int>)

  function Pow2(n: nat): (p: nat)
    ensures p >= 1
  {
    if n == 0 then 1 else 2 * Pow2(n - 1)
  }

  /** The sleeps of `n` retries starting at `delay`: each twice the last. */
  function Schedule(delay: int, n: nat): (s: seq<int>)
    ensures |s| == n
    decreases n
  {
    if n == 0 then [] else [delay] + Schedule(delay * 2, n - 1)
  }

  /** The k-th sleep lasts delay * 2^k. */
  lemma {:induction false} ScheduleAt(delay: int, n: nat, k: nat)
    requires k < n
    ensures Schedule(delay, n)[k] == delay * Pow2(k)
    decreases k
  {
    if k > 0 {
      ScheduleAt(delay * 2, n - 1, k - 1);
      assert delay * 2 * Pow2(k - 1) == delay * (2 * Pow2(k - 1));
    }
  }

  /** `withRetry(fn, retries, delay)`, where `fn(k)` is the outcome of the
      k-th call. Attempts continue while the outcome is a retryable failure
      and retries remain; the delay doubles each time. */
  function WithRetry<T>(fn: nat -> Result<T, Error>, retries: int, delay: int): (run: Run<T>)
    // the number of calls is within the budget
    ensures 1 <= run.attempts <= (if retries > 0 then retries else 0) + 1
    // every call but the last failed with 429/503
    ensures forall j :: 0 <= j < run.attempts - 1 ==> IsRetryable(fn(j))
    // the calls stop early only on an outcome that is not retried
    ensures run.attempts - 1 < retries ==> !IsRetryable(fn(run.attempts - 1))
    // the last call's outcome is returned or rethrown unchanged
    ensures run.result == fn(run.attempts - 1)
    // one sleep before each retry, doubling from `delay`
    ensures run.delays == Schedule(delay, run.attempts - 1)
    decreases if retries > 0 then retries else 0
  {
    var outcome := fn(0);
    if retries > 0 && IsRetryable(outcome) then
      var next := (j: nat) => fn(j + 1);
      var rest := WithRetry(next, retries - 1, delay * 2);
      forall j | 1 <= j < rest.attempts ensures IsRetryable(fn(j)) {
        assert IsRetryable(next(j - 1));
      }
      Run(rest.result, rest.attempts + 1, [delay] + rest.delays)
    else
      Run(outcome, 1, [])
  }

  /** The first successful call's value is returned, once every earlier call
      failed with 429/503 within the budget. */
  lemma RetryReturnsFirstSuccess<T>(fn: nat -> Result<T, Error>, retries: int, delay: int, m: nat)
    requires m <= retries
    requires forall j :: 0 <= j < m ==> IsRetryable(fn(j))
    requires fn(m).Success?
    ensures WithRetry(fn, retries, delay).result == fn(m)
    ensures WithRetry(fn, retries, delay).attempts == m + 1
  {
    assert !IsRetryable(fn(m));
  }

  /** A failure that is not 429/503 is rethrown at once, with no sleep and
      no further call. */
  lemma NonRetryableRethrown<T>(fn: nat -> Result<T, Error>, retries: int, delay: int)
    requires fn(0).Failure? && !IsRetryable(fn(0))
    ensures WithRetry(fn, retries, delay) == Run(fn(0), 1, [])
  {
  }

  /** When every call fails with 429/503 the budget is used up and the last
      error is rethrown. */
  lemma RetryBudgetExhausted<T>(fn: nat -> Result<T, Error>, retries: nat, delay: int)
    requires forall j :: 0 <= j <= retries ==> IsRetryable(fn(j))
    ensures WithRetry(fn, retries, delay).attempts == retries + 1
    ensures WithRetry(fn, retries, delay).result == fn(retries)
    ensures WithRetry(fn, retries, delay).result.Failure?
  {
  }

  function Sum(xs: seq<int>): int {
    if |xs| == 0 then 0 else xs[0] + Sum(xs[1..])
  }

  /** The sleeps of a doubling schedule add up to delay * (2^n - 1). */
  lemma {:induction false} ScheduleSum(delay: int, n: nat)
    ensures Sum(Schedule(delay, n)) == delay * (Pow2(n) - 1)
    decreases n
  {
    if n > 0 {
      ScheduleSum(delay * 2, n - 1);
      var p := Pow2(n - 1);
      assert Sum(Schedule(delay, n)) == delay + delay * 2 * (p - 1);
      assert delay * 2 * (p - 1) == delay * (2 * p) - 2 * delay;
      assert delay * (Pow2(n) - 1) == delay * (2 * p) - delay;
    }
  }

  /** The total time slept is delay * (2^(attempts-1) - 1). */
  lemma RetryTotalDelay<T>(fn: nat -> Result<T, Error>, retries: int, delay: int)
    ensures Sum(WithRetry(fn, retries, delay).delays)
         == delay * (Pow2(WithRetry(fn, retries, delay).attempts - 1) - 1)
  {
    ScheduleSum(delay, WithRetry(fn, retries, delay).attempts - 1);
  }

  /** The first n sleeps of the default schedule. */
  lemma DefaultSchedulePrefix(n: nat)
    requires n <= 3
    ensures Schedule(DefaultDelay, n) == [2000, 4000, 8000][..n]
    ensures Sum(Schedule(DefaultDelay, n)) <= 14000
    ensures Sum(Schedule(DefaultDelay, n)) == 14000 <==> n == 3
  {
    ScheduleSum(DefaultDelay, n);
    assert Schedule(16000, 0) == [];
    assert Schedule(8000, 1) == [8000];
    assert Schedule(4000, 2) == [4000, 8000];
    assert Schedule(2000, 3) == [2000, 4000, 8000];
    assert Pow2(1) == 2 && Pow2(2) == 4 && Pow2(3) == 8;
    assert n == 0 || n == 1 || n == 2 || n == 3;
  }

  /** With the defaults (3 retries, 2000 ms): at most 4 calls, the sleeps
      are a prefix of 2000, 4000, 8000 ms, and they total 14000 ms exactly
      when the whole budget is used. */
  lemma DefaultRetrySchedule<T>(fn: nat -> Result<T, Error>)
    ensures WithRetry(fn, DefaultRetries, DefaultDelay).attempts <= 4
    ensures var d := WithRetry(fn, DefaultRetries, DefaultDelay).delays;
      d == [2000, 4000, 8000][..|d|]
    ensures Sum(WithRetry(fn, DefaultRetries, DefaultDelay).delays) <= 14000
    ensures Sum(WithRetry(fn, DefaultRetries, DefaultDelay).delays) == 14000
        <==> WithRetry(fn, DefaultRetries, DefaultDelay).attempts == 4
  {
    DefaultSchedulePrefix(WithRetry(fn, DefaultRetries, DefaultDelay).attempts - 1);
  }

  /** Two 429/503 failures and then a success: the success is returned after
      exactly two retries, having slept 2000 + 4000 ms. */
  lemma TwoRateLimitsThenSuccess<T>(fn: nat -> Result<T, Error>, v: T)
    requires IsRetryable(fn(0)) && IsRetryable(fn(1))
    requires fn(2) == Success(v)
    ensures WithRetry(fn, DefaultRetries, DefaultDelay) == Run(Success(v), 3, [2000, 4000])
  {
    RetryReturnsFirstSuccess(fn, DefaultRetries, DefaultDelay, 2);
    DefaultRetrySchedule(fn);
  }

  // =====================================================================
  // API key guard
  // =====================================================================

  const ApiKeyMissing: Error := Error(None, "API_KEY_MISSING")

  /** `!apiKey` is false: the key is present and not empty. */
  predicate HasApiKey(apiKey: Option<string>) {
    apiKey.Some? && apiKey.value != ""
  }

  // =====================================================================
  // Request assembly
  // =====================================================================

  /** A part of the request contents: an inline document or the prompt. */
  datatype Part = InlineData(data: string, mimeType: string) | TextPart(text: string)

  datatype Request = Request(parts: seq<Part>)

  /** The payload sent for a file: the second comma-separated segment
      of the data URI, or the whole string when that segment is missing or
      empty. */
  function StripDataUri(data: string): string {
    var segments := Split(data, ',');
    if |segments| > 1 && segments[1] != "" then segments[1] else data
  }

  /** Stripping keeps a string without a comma, and otherwise takes the text
      between the first and the second comma when it is not empty. */
  lemma StripDataUriSegments(data: string)
    ensures ',' !in data ==> StripDataUri(data) == data
    ensures forall a, b :: data == a + "," + b && ',' !in a ==>
      StripDataUri(data) == (if TakeUntil(b, ',') == "" then data else TakeUntil(b, ','))
  {
    if ',' !in data {
      SplitWithoutSeparator(data, ',');
    }
    forall a, b | data == a + "," + b && ',' !in a
      ensures StripDataUri(data) == (if TakeUntil(b, ',') == "" then data else TakeUntil(b, ','))
    {
      SplitAtFirst(a, ',', b);
      SplitHead(b, ',');
      assert Split(data, ',')[1] == Split(b, ',')[0];
    }
  }

  /** A data URI `<header>,<payload>` is reduced to its payload. */
  lemma StripDataUriOfDataUri(header: string, payload: string)
    requires ',' !in header && ',' !in payload && payload != ""
    ensures StripDataUri(header + "," + payload) == payload
  {
    StripDataUriSegments(header + "," + payload);
    assert TakeUntil(payload, ',') == payload;
  }

  function FilePart(f: ReferenceFile): Part {
    InlineData(StripDataUri(f.data), f.mimeType)
  }

  /** One inline part per file, in file order. */
  function FileParts(files: seq<ReferenceFile>): (parts: seq<Part>)
    ensures |parts| == |files|
    ensures forall i :: 0 <= i < |files| ==>
      parts[i].InlineData? && parts[i].data == StripDataUri(files[i].data) && parts[i].mimeType == files[i].mimeType
  {
    if |files| == 0 then [] else [FilePart(files[0])] + FileParts(files[1..])
  }

  const WeakTopicsLead: string := "เน้นประเด็นที่นักเรียนยังไม่เข้าใจ (Weak topics): "
  const DefaultTargeting: string := "สร้างข้อสอบเก็งแนวสำหรับนักเรียนรายบุคคล"

  /** The task line: the weak topics, joined with ", ", when there are any;
      the default sentence otherwise. */
  function TargetingText(weakTopics: Option<seq<string>>): string {
    if weakTopics.Some? && |weakTopics.value| > 0
    then WeakTopicsLead + Join(weakTopics.value, ", ")
    else DefaultTargeting
  }

  /** The text names the weak topics exactly when some were given: it starts
      with the weak-topic lead iff the list is non-empty, then holds every
      topic; without topics it is the default sentence. */
  lemma TargetingNamesWeakTopics(weakTopics: Option<seq<string>>)
    ensures StartsWith(TargetingText(weakTopics), WeakTopicsLead)
        <==> weakTopics.Some? && |weakTopics.value| > 0
    ensures weakTopics.Some? && |weakTopics.value| > 0 ==>
      TargetingText(weakTopics) == WeakTopicsLead + Join(weakTopics.value, ", ") &&
      forall i :: 0 <= i < |weakTopics.value| ==> IsInfix(weakTopics.value[i], TargetingText(weakTopics))
    ensures weakTopics.None? || |weakTopics.value| == 0 ==> TargetingText(weakTopics) == DefaultTargeting
  {
    var t := TargetingText(weakTopics);
    if weakTopics.Some? && |weakTopics.value| > 0 {
      var joined := Join(weakTopics.value, ", ");
      assert t[..|WeakTopicsLead|] == WeakTopicsLead;
      forall i | 0 <= i < |weakTopics.value| ensures IsInfix(weakTopics.value[i], t) {
        JoinContainsEach(weakTopics.value, ", ", i);
        var k :| 0 <= k <= |joined| && InfixAt(weakTopics.value[i], joined, k);
        assert t[|WeakTopicsLead| + k..|WeakTopicsLead| + k + |weakTopics.value[i]|]
            == joined[k..k + |weakTopics.value[i]|];
        assert InfixAt(weakTopics.value[i], t, |WeakTopicsLead| + k);
      }
    } else {
      assert |DefaultTargeting| < |WeakTopicsLead|;
    }
  }

  const PromptRole: string := "คุณคือผู้เชี่ยวชาญด้านหลักสูตรการศึกษาไทย (สพฐ.) สำหรับชั้น "
  const TaskLabel: string := "\n  ภารกิจ: "
  const LanguageLabel: string := "\n  ภาษาของข้อสอบ: "
  const CountLabel: string := "\n  จำนวนข้อ: "
  const Instructions: string := "\n  \n  คำแนะนำพิเศษ:\n  - วิเคราะห์ไฟล์แนบอย่างละเอียด\n  - ออกข้อสอบแบบเลือกตอบ 4 ตัวเลือก"
  /** The fixed rule that explanations are written in Thai for the grade. */
  const ThaiExplanationRule: string := "\n  - เฉลย (Explanation) ต้องเป็นภาษาไทยที่เข้าใจง่ายสำหรับเด็กชั้น "
  const JsonOnly: string := "\n  - กลับค่าเป็น JSON Array เท่านั้น"

  /** The pieces of the prompt template, filled in with the grade (twice),
      the task line, the exam language and the number of questions. */
  function PromptLines(grade: Grade, language: Language, count: int, targeting: string): seq<string> {
    [ PromptRole + GradeName(grade),
      TaskLabel + targeting,
      LanguageLabel + LanguageName(language),
      CountLabel + IntToString(count) + Instructions,
      ThaiExplanationRule + GradeName(grade),
      JsonOnly ]
  }

  /** The prompt: the template's pieces, one after another. */
  function ExamPrompt(grade: Grade, language: Language, count: int, targeting: string): string {
    Concat(PromptLines(grade, language, count, targeting))
  }

  /** The prompt states each parameter on its labelled line, and always
      carries the Thai-explanation rule for the grade, whatever the exam
      language. */
  lemma ExamPromptEmbedsParameters(grade: Grade, language: Language, count: int, targeting: string)
    ensures StartsWith(ExamPrompt(grade, language, count, targeting), PromptRole + GradeName(grade))
    ensures IsInfix(TaskLabel + targeting, ExamPrompt(grade, language, count, targeting))
    ensures IsInfix(LanguageLabel + LanguageName(language), ExamPrompt(grade, language, count, targeting))
    ensures IsInfix(CountLabel + IntToString(count) + Instructions, ExamPrompt(grade, language, count, targeting))
    ensures IsInfix(ThaiExplanationRule + GradeName(grade), ExamPrompt(grade, language, count, targeting))
  {
    var lines := PromptLines(grade, language, count, targeting);
    ConcatStartsWithFirst(lines);
    ConcatContainsEach(lines, 1);
    ConcatContainsEach(lines, 2);
    ConcatContainsEach(lines, 3);
    ConcatContainsEach(lines, 4);
  }

  /** Prompts built for two counts differ: the prompt determines the number
      of questions asked for. */
  lemma ExamPromptDeterminesCount(grade: Grade, language: Language, c1: int, c2: int, targeting: string)
    requires ExamPrompt(grade, language, c1, targeting) == ExamPrompt(grade, language, c2, targeting)
    ensures c1 == c2
  {
    SixPiecesSameMiddle(PromptRole + GradeName(grade), TaskLabel + targeting,
                        LanguageLabel + LanguageName(language), CountLabel,
                        IntToString(c1), IntToString(c2), Instructions,
                        ThaiExplanationRule + GradeName(grade), JsonOnly);
    IntToStringInjective(c1, c2);
  }

  /** The request for `generateExamFromFile`: the file parts, then the text
      prompt. */
  function BuildRequest(files: seq<ReferenceFile>, grade: Grade, language: Language, count: int,
                        weakTopics: Option<seq<string>>): Request
  {
    Request(FileParts(files) + [TextPart(ExamPrompt(grade, language, count, TargetingText(weakTopics)))])
  }

  /** One inline part per file, in file order with its mime type, and the
      prompt as the single text part, last. */
  lemma RequestPartOrder(files: seq<ReferenceFile>, grade: Grade, language: Language, count: int,
                         weakTopics: Option<seq<string>>)
    ensures var parts := BuildRequest(files, grade, language, count, weakTopics).parts;
      |parts| == |files| + 1 &&
      (forall i :: 0 <= i < |files| ==>
        parts[i] == InlineData(StripDataUri(files[i].data), files[i].mimeType)) &&
      parts[|files|] == TextPart(ExamPrompt(grade, language, count, TargetingText(weakTopics))) &&
      (forall i :: 0 <= i < |parts| && parts[i].TextPart? ==> i == |files|)
  {
  }

  // =====================================================================
  // Result normalisation
  // =====================================================================

  /** A record as the decoder produced it; it may carry an `id` of its own. */
  datatype RawQuestion = RawQuestion(
    id: Option<string>,
    text: string,
    options: seq<string>,
    correctIndex: int,
    explanation: string,
    topic: string)

  /** `q-<timestamp>-<index>`. */
  function QuestionId(stamp: nat, index: nat): string {
    "q-" + NatToString(stamp) + "-" + NatToString(index)
  }

  /** Two ids are equal only when both the timestamps and the indices are:
      the digits contain no '-', so the second '-' separates the two. */
  lemma QuestionIdInjective(t1: nat, i1: nat, t2: nat, i2: nat)
    requires QuestionId(t1, i1) == QuestionId(t2, i2)
    ensures t1 == t2 && i1 == i2
  {
    var a, b, c, d := NatToString(t1), NatToString(i1), NatToString(t2), NatToString(i2);
    var s := QuestionId(t1, i1);
    assert s == "q-" + a + "-" + b;
    assert s == "q-" + c + "-" + d;
    // the first '-' after the prefix ends both timestamps
    assert forall k :: 0 <= k < |a| ==> s[2 + k] == a[k];
    assert forall k :: 0 <= k < |c| ==> s[2 + k] == c[k];
    assert s[2 + |a|] == '-' && s[2 + |c|] == '-';
    assert |a| == |c|;
    assert a == s[2..2 + |a|] == c;
    assert b == s[3 + |a|..] == d;
    NatToStringInjective(t1, t2);
    NatToStringInjective(i1, i2);
  }

  /** `{...q, id}`: every field kept, the id replaced. */
  function Decorate(r: RawQuestion, stamp: nat, index: nat): Question {
    Question(QuestionId(stamp, index), r.text, r.options, r.correctIndex, r.explanation, r.topic)
  }

  /** Every decoded record with an id stamped on it, from position `from` on; `clock(i)` is the
      time read while record `i` is decorated. */
  function AssignIds(records: seq<RawQuestion>, clock: nat -> nat, from: nat): (qs: seq<Question>)
    ensures |qs| == |records|
    ensures forall i :: 0 <= i < |records| ==>
      qs[i].id == QuestionId(clock(from + i), from + i) &&
      qs[i].text == records[i].text && qs[i].options == records[i].options &&
      qs[i].correctIndex == records[i].correctIndex &&
      qs[i].explanation == records[i].explanation && qs[i].topic == records[i].topic
  {
    if |records| == 0 then []
    else [Decorate(records[0], clock(from), from)] + AssignIds(records[1..], clock, from + 1)
  }

  /** No two questions of the list share an id. */
  predicate DistinctIds(qs: seq<Question>) {
    forall i, j :: 0 <= i < j < |qs| ==> qs[i].id != qs[j].id
  }

  /** The ids of one batch are pairwise distinct, whatever the clock reads. */
  lemma AssignIdsDistinct(records: seq<RawQuestion>, clock: nat -> nat)
    ensures DistinctIds(AssignIds(records, clock, 0))
  {
    var qs := AssignIds(records, clock, 0);
    forall i, j | 0 <= i < j < |qs| ensures qs[i].id != qs[j].id {
      if qs[i].id == qs[j].id {
        QuestionIdInjective(clock(i), i, clock(j), j);
      }
    }
  }

  /** The body of the retried closure after the SDK replied with `text`:
      trim, read an empty reply as `[]`, decode, decorate. A decoding failure
      is thrown as an error without a status. */
  function NormaliseQuestions(text: Option<string>, decode: string -> Result<seq<RawQuestion>, string>,
                              clock: nat -> nat): Result<seq<Question>, Error>
  {
    var body := Trim(text.GetOr(""));
    if body == "" then Success([])
    else match decode(body)
      case Failure(message) => Failure(Error(None, message))
      case Success(records) => Success(AssignIds(records, clock, 0))
  }

  /** A missing or blank reply gives no questions. */
  lemma BlankReplyGivesNoQuestions(text: Option<string>, decode: string -> Result<seq<RawQuestion>, string>,
                                   clock: nat -> nat)
    requires forall i :: 0 <= i < |text.GetOr("")| ==> IsJsWhitespace(text.GetOr("")[i])
    ensures NormaliseQuestions(text, decode, clock) == Success([])
  {
    TrimEmptyIffBlank(text.GetOr(""));
  }

  /** Otherwise the decoder decides: its failure becomes an error without a
      status, so it is never retried. */
  lemma NormaliseQuestionsFailure(text: Option<string>, decode: string -> Result<seq<RawQuestion>, string>,
                                  clock: nat -> nat)
    ensures var r := NormaliseQuestions(text, decode, clock);
      var body := Trim(text.GetOr(""));
      (r.Failure? <==> body != "" && decode(body).Failure?) &&
      (r.Failure? ==> r == Failure(Error(None, decode(body).error)) && !IsRetryable(r))
  {
  }

  /** A question list it returns carries pairwise distinct ids. */
  lemma NormaliseQuestionsIdsDistinct(text: Option<string>, decode: string -> Result<seq<RawQuestion>, string>,
                                      clock: nat -> nat)
    requires NormaliseQuestions(text, decode, clock).Success?
    ensures DistinctIds(NormaliseQuestions(text, decode, clock).value)
  {
    var body := Trim(text.GetOr(""));
    if body != "" {
      AssignIdsDistinct(decode(body).value, clock);
    }
  }

  /** One call of the retried closure: the SDK's outcome for attempt `k`,
      then normalisation with the clock of that attempt. */
  function GenerationAttempt(reply: Result<Option<string>, Error>,
                             decode: string -> Result<seq<RawQuestion>, string>,
                             clock: nat -> nat): Result<seq<Question>, Error>
  {
    match reply
    case Failure(e) => Failure(e)
    case Success(text) => NormaliseQuestions(text, decode, clock)
  }

  /** `generateExamFromFile`: the key guard, then the request is built once
      and sent through `withRetry` with its defaults. */
  function GenerateExamFromFile(
    apiKey: Option<string>, files: seq<ReferenceFile>, grade: Grade, language: Language, count: int,
    weakTopics: Option<seq<string>>,
    respond: (Request, nat) -> Result<Option<string>, Error>,
    decode: string -> Result<seq<RawQuestion>, string>,
    clock: (nat, nat) -> nat): Run<seq<Question>>
  {
    if !HasApiKey(apiKey) then Run(Failure(ApiKeyMissing), 0, [])
    else
      var request := BuildRequest(files, grade, language, count, weakTopics);
      WithRetry(ExamAttempts(request, respond, decode, clock), DefaultRetries, DefaultDelay)
  }

  /** The attempt function `generateExamFromFile` hands to `withRetry`. */
  function ExamAttempts(request: Request, respond: (Request, nat) -> Result<Option<string>, Error>,
                        decode: string -> Result<seq<RawQuestion>, string>,
                        clock: (nat, nat) -> nat): nat -> Result<seq<Question>, Error>
  {
    (k: nat) => GenerationAttempt(respond(request, k), decode, i => clock(k, i))
  }

  /** An attempt of the generator is retryable exactly when the SDK call of
      that attempt failed with 429 or 503: the SDK's error passes through
      with its status, and every failure of normalisation has none. So the
      retry lemmas about `WithRetry` apply to the SDK's own outcomes. */
  lemma SdkStatusRetried(request: Request, respond: (Request, nat) -> Result<Option<string>, Error>,
                         decode: string -> Result<seq<RawQuestion>, string>,
                         clock: (nat, nat) -> nat, k: nat)
    ensures IsRetryable(ExamAttempts(request, respond, decode, clock)(k)) <==> IsRetryable(respond(request, k))
    ensures respond(request, k).Failure? ==>
      ExamAttempts(request, respond, decode, clock)(k) == Failure(respond(request, k).error)
  {
    var reply := respond(request, k);
    if reply.Success? {
      NormaliseQuestionsFailure(reply.value, decode, i => clock(k, i));
    }
  }

  /** Without a key the call throws `API_KEY_MISSING` before any attempt;
      with one it makes between 1 and 4 attempts. */
  lemma GenerateExamAttempts(
    apiKey: Option<string>, files: seq<ReferenceFile>, grade: Grade, language: Language, count: int,
    weakTopics: Option<seq<string>>,
    respond: (Request, nat) -> Result<Option<string>, Error>,
    decode: string -> Result<seq<RawQuestion>, string>,
    clock: (nat, nat) -> nat)
    ensures var run := GenerateExamFromFile(apiKey, files, grade, language, count, weakTopics, respond, decode, clock);
      (run.attempts == 0 <==> !HasApiKey(apiKey)) &&
      (!HasApiKey(apiKey) ==> run == Run(Failure(ApiKeyMissing), 0, [])) &&
      run.attempts <= 4
  {
  }

  /** A question list the call returns has pairwise distinct ids. */
  lemma GenerateExamIdsDistinct(
    apiKey: Option<string>, files: seq<ReferenceFile>, grade: Grade, language: Language, count: int,
    weakTopics: Option<seq<string>>,
    respond: (Request, nat) -> Result<Option<string>, Error>,
    decode: string -> Result<seq<RawQuestion>, string>,
    clock: (nat, nat) -> nat)
    requires GenerateExamFromFile(apiKey, files, grade, language, count, weakTopics, respond, decode, clock).result.Success?
    ensures DistinctIds(GenerateExamFromFile(apiKey, files, grade, language, count, weakTopics, respond, decode, clock).result.value)
  {
    var request := BuildRequest(files, grade, language, count, weakTopics);
    var fn := ExamAttempts(request, respond, decode, clock);
    var run := WithRetry(fn, DefaultRetries, DefaultDelay);
    var k := run.attempts - 1;
    var clk := (i: nat) => clock(k, i);
    assert run.result == fn(k) == GenerationAttempt(respond(request, k), decode, clk);
    var reply := respond(request, k);
    assert reply.Success? && run.result == NormaliseQuestions(reply.value, decode, clk);
    NormaliseQuestionsIdsDistinct(reply.value, decode, clk);
  }

  /** A reply the decoder rejects fails the call at once: it is not
      retried. */
  lemma MalformedReplyNotRetried(
    apiKey: Option<string>, files: seq<ReferenceFile>, grade: Grade, language: Language, count: int,
    weakTopics: Option<seq<string>>,
    respond: (Request, nat) -> Result<Option<string>, Error>,
    decode: string -> Result<seq<RawQuestion>, string>,
    clock: (nat, nat) -> nat, text: string)
    requires HasApiKey(apiKey)
    requires respond(BuildRequest(files, grade, language, count, weakTopics), 0) == Success(Some(text))
    requires Trim(text) != "" && decode(Trim(text)).Failure?
    ensures GenerateExamFromFile(apiKey, files, grade, language, count, weakTopics, respond, decode, clock)
         == Run(Failure(Error(None, decode(Trim(text)).error)), 1, [])
  {
    var request := BuildRequest(files, grade, language, count, weakTopics);
    var fn := ExamAttempts(request, respond, decode, clock);
    assert fn(0) == Failure(Error(None, decode(Trim(text)).error));
    NonRetryableRethrown(fn, DefaultRetries, DefaultDelay);
  }

  // =====================================================================
  // Analysis
  // =====================================================================

  /** One line of the history sent for analysis. */
  datatype HistoryEntry = HistoryEntry(topic: string, correct: bool)

  /** `userAnswers[i]`: `undefined` (here `None`) past the end. */
  function AnswerAt(answers: Answers, i: nat): Option<int> {
    if i < |answers| then answers[i] else None
  }

  /** The history sent for analysis: per question its topic, and whether
      the answer in the same position (if any) equals the correct index. */
  function History(questions: seq<Question>, answers: Answers): (h: seq<HistoryEntry>)
    ensures |h| == |questions|
    ensures forall i :: 0 <= i < |questions| ==>
      h[i].topic == questions[i].topic &&
      (h[i].correct <==> i < |answers| && answers[i] == Some(questions[i].correctIndex))
  {
    if |questions| == 0 then []
    else
      [HistoryEntry(questions[0].topic, AnswerAt(answers, 0) == Some(questions[0].correctIndex))]
      + History(questions[1..], if |answers| > 0 then answers[1..] else [])
  }

  /** The analysis object as decoded: nothing checks that the fields are
      there. */
  datatype Analysis = Analysis(
    summary: Option<string>,
    strengths: Option<seq<string>>,
    weaknesses: Option<seq<string>>,
    readingAdvice: Option<string>)

  /** What `JSON.parse("{}")` gives for an empty reply. */
  const EmptyAnalysis: Analysis := Analysis(None, None, None, None)

  function AnalysisAttempt(reply: Result<Option<string>, Error>,
                           decode: string -> Result<Analysis, string>): Result<Analysis, Error>
  {
    match reply
    case Failure(e) => Failure(e)
    case Success(text) =>
      var body := Trim(text.GetOr(""));
      if body == "" then Success(EmptyAnalysis)
      else match decode(body)
        case Failure(message) => Failure(Error(None, message))
        case Success(a) => Success(a)
  }

  /** `analyzeExamResults`: the key guard, the history, then the call through
      `withRetry` with its defaults. The prompt text around the history is
      the oracle's concern. */
  function AnalyzeExamResults(
    apiKey: Option<string>, questions: seq<Question>, answers: Answers,
    respond: (seq<HistoryEntry>, nat) -> Result<Option<string>, Error>,
    decode: string -> Result<Analysis, string>): Run<Analysis>
  {
    if !HasApiKey(apiKey) then Run(Failure(ApiKeyMissing), 0, [])
    else
      var history := History(questions, answers);
      WithRetry((k: nat) => AnalysisAttempt(respond(history, k), decode), DefaultRetries, DefaultDelay)
  }

  /** Without a key the analysis throws `API_KEY_MISSING` before any
      attempt; with one, a first reply that is missing or all white space
      yields the empty object. */
  lemma AnalyzeExamOutcome(
    apiKey: Option<string>, questions: seq<Question>, answers: Answers,
    respond: (seq<HistoryEntry>, nat) -> Result<Option<string>, Error>,
    decode: string -> Result<Analysis, string>)
    ensures var run := AnalyzeExamResults(apiKey, questions, answers, respond, decode);
      (run.attempts == 0 <==> !HasApiKey(apiKey)) &&
      (!HasApiKey(apiKey) ==> run.result == Failure(ApiKeyMissing)) &&
      run.attempts <= 4
    ensures var reply := respond(History(questions, answers), 0);
      HasApiKey(apiKey) && reply.Success? &&
      (forall i :: 0 <= i < |reply.value.GetOr("")| ==> IsJsWhitespace(reply.value.GetOr("")[i])) ==>
      AnalyzeExamResults(apiKey, questions, answers, respond, decode) == Run(Success(EmptyAnalysis), 1, [])
  {
    var reply := respond(History(questions, answers), 0);
    if reply.Success? {
      TrimEmptyIffBlank(reply.value.GetOr(""));
    }
  }

  /** An analysis attempt is retryable exactly when its SDK call failed
      with 429 or 503; the SDK's error passes through unchanged. */
  lemma AnalysisSdkStatusRetried(reply: Result<Option<string>, Error>, decode: string -> Result<Analysis, string>)
    ensures IsRetryable(AnalysisAttempt(reply, decode)) <==> IsRetryable(reply)
    ensures reply.Failure? ==> AnalysisAttempt(reply, decode) == Failure(reply.error)
  {
  }

  /** A non-blank first reply settles the analysis in one attempt: the
      decoded object is returned as it is, and a decoder failure becomes a
      status-less error that is not retried. */
  lemma AnalysisDecodedReply(
    apiKey: Option<string>, questions: seq<Question>, answers: Answers,
    respond: (seq<HistoryEntry>, nat) -> Result<Option<string>, Error>,
    decode: string -> Result<Analysis, string>, text: string)
    requires HasApiKey(apiKey)
    requires respond(History(questions, answers), 0) == Success(Some(text))
    requires Trim(text) != ""
    ensures decode(Trim(text)).Failure? ==>
      AnalyzeExamResults(apiKey, questions, answers, respond, decode)
        == Run(Failure(Error(None, decode(Trim(text)).error)), 1, [])
    ensures decode(Trim(text)).Success? ==>
      AnalyzeExamResults(apiKey, questions, answers, respond, decode)
        == Run(Success(decode(Trim(text)).value), 1, [])
  {
  }
}
