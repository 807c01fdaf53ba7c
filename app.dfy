/** The top-level view and session state: who is signed in, which view is
    shown, the current exam session, the loading flag and the answers handed
    to the analysis view. Browser storage is the field `storedUser` (the
    session-storage entry `questup_user`); `alert` texts are returned. */
module AppShell {
  import opened Wrappers
  import opened Text
  import opened Types
  import GeminiService
  import QuizComponent

  datatype View = LoginView | SetupView | QuizView | AnalysisView

  /** What `JSON.parse` made of the stored user: a parse error, or a value,
      which may be `null`. */
  datatype StoredUserDecode = Malformed | Decoded(user: Option<User>)

  const ConfigAlert: string := "ระบบขัดข้อง: ไม่พบ API Key สำหรับประมวลผล กรุณาตรวจสอบการตั้งค่า Environment Variable"
  const RetryLaterAlert: string := "AI ไม่สามารถสร้างข้อสอบได้ในขณะนี้ กรุณาลองใหม่อีกครั้งใน 1 นาที"
  /** The error thrown when generation returns no questions. */
  const NoQuestionsMessage: string := "Could not generate questions"

  /** The alert for a failed start: the configuration message when the
      error's message mentions "API Key", the retry-later message otherwise. */
  function AlertFor(message: string): string {
    if IsInfix("API Key", message) then ConfigAlert else RetryLaterAlert
  }

  /** The message of the error a failed start ends with. */
  function StartFailureMessage(generated: Result<seq<Question>, Error>): string {
    match generated
    case Success(_) => NoQuestionsMessage
    case Failure(e) => e.message
  }

  /** A missing key (`API_KEY_MISSING`) and an empty question list both get
      the retry-later alert: neither message contains "API Key". */
  lemma AlertForServiceErrors()
    ensures AlertFor(GeminiService.ApiKeyMissing.message) == RetryLaterAlert
    ensures AlertFor(NoQuestionsMessage) == RetryLaterAlert
  {
    NotInfixWhenCharMissing("API Key", "API_KEY_MISSING", ' ');
    NotInfixWhenCharMissing("API Key", NoQuestionsMessage, 'A');
  }

  /** An error whose message carries "API Key" gets the configuration
      alert, wherever in the message it stands. */
  lemma AlertForApiKeyMessages(before: string, after: string)
    ensures AlertFor(before + "API Key" + after) == ConfigAlert
  {
    InfixMiddle(before, "API Key", after);
  }

  /** The session a successful start records. */
  function NewSession(u: User, files: seq<ReferenceFile>, grade: Grade, language: Language, count: int,
                      questions: seq<Question>, weakTopics: Option<seq<string>>): ExamSession
  {
    ExamSession(u.id, files, grade, language, count, questions, 0, weakTopics)
  }

  class App {
    var user: Option<User>
    var view: View
    var session: Option<ExamSession>
    var isLoading: bool
    var userAnswers: Answers
    var storedUser: Option<string>

    /** Between handlers nothing is loading, and the quiz view always has a
        session with questions and one answer slot per question. */
    ghost predicate Valid()
      reads this
    {
      && !isLoading
      && (view == QuizView ==>
            session.Some? && |session.value.questions| > 0 &&
            |userAnswers| == |session.value.questions|)
    }

    /** The initial state; `stored` is what session storage holds. */
    constructor (stored: Option<string>)
      ensures Valid()
      ensures user == None && view == LoginView && session == None
      ensures !isLoading && userAnswers == [] && storedUser == stored
    {
      user := None;
      view := LoginView;
      session := None;
      isLoading := false;
      userAnswers := [];
      storedUser := stored;
    }

    /** The mount effect: a stored user that is present, not empty and not
        the text "undefined" is restored and the setup view shown; one that
        does not parse is removed from storage. */
    method RestoreStoredUser(decode: string -> StoredUserDecode)
      requires Valid()
      modifies this
      ensures Valid()
      ensures session == old(session) && userAnswers == old(userAnswers) && isLoading == old(isLoading)
      ensures var s := old(storedUser);
        if s.Some? && s.value != "" && s.value != "undefined" then
          match decode(s.value)
          case Malformed =>
            storedUser == None && user == old(user) && view == old(view)
          case Decoded(u) =>
            storedUser == old(storedUser) && user == u && view == SetupView
        else
          storedUser == old(storedUser) && user == old(user) && view == old(view)
    {
      if storedUser.Some? && storedUser.value != "" && storedUser.value != "undefined" {
        match decode(storedUser.value)
        case Malformed =>
          storedUser := None;
        case Decoded(u) =>
          user := u;
          view := SetupView;
      }
    }

    /** `handleLogin`: sign in, store the encoded user, show the setup view. */
    method HandleLogin(newUser: User, encode: User -> string)
      requires Valid()
      modifies this
      ensures Valid()
      ensures user == Some(newUser) && storedUser == Some(encode(newUser)) && view == SetupView
      ensures session == old(session) && userAnswers == old(userAnswers) && isLoading == old(isLoading)
    {
      user := Some(newUser);
      storedUser := Some(encode(newUser));
      view := SetupView;
    }

    /** `handleLogout`: sign out, forget the stored user, show the login
        view. The session is kept. */
    method HandleLogout()
      requires Valid()
      modifies this
      ensures Valid()
      ensures user == None && storedUser == None && view == LoginView
      ensures session == old(session) && userAnswers == old(userAnswers) && isLoading == old(isLoading)
    {
      user := None;
      storedUser := None;
      view := LoginView;
    }

    /** `handleStartExam`, with `generated` the outcome of the generator
        call. Without a user nothing happens. Otherwise a non-empty question
        list starts a session in the quiz view with every answer cleared; an
        empty list or an error leaves session and view as they were and
        raises an alert. The loading flag is cleared on every path. */
    method HandleStartExam(files: seq<ReferenceFile>, grade: Grade, language: Language, count: int,
                           weakTopics: Option<seq<string>>, generated: Result<seq<Question>, Error>)
      returns (alert: Option<string>)
      requires Valid()
      modifies this
      ensures Valid()
      ensures user == old(user) && storedUser == old(storedUser) && !isLoading
      ensures old(user).None? ==>
        session == old(session) && view == old(view) && userAnswers == old(userAnswers) && alert == None
      ensures old(user).Some? && generated.Success? && |generated.value| > 0 ==>
        && session == Some(NewSession(old(user).value, files, grade, language, count, generated.value, weakTopics))
        && userAnswers == QuizComponent.NoAnswers(|generated.value|)
        && view == QuizView
        && alert == None
      ensures old(user).Some? && !(generated.Success? && |generated.value| > 0) ==>
        && session == old(session) && view == old(view) && userAnswers == old(userAnswers)
        && alert == Some(AlertFor(StartFailureMessage(generated)))
    {
      alert := None;
      if user.None? {
        return;
      }
      isLoading := true;
      if generated.Success? && |generated.value| > 0 {
        var questions := generated.value;
        session := Some(NewSession(user.value, files, grade, language, count, questions, weakTopics));
        userAnswers := QuizComponent.NoAnswers(|questions|);
        view := QuizView;
      } else {
        alert := Some(AlertFor(StartFailureMessage(generated)));
      }
      isLoading := false;
    }

    /** `handleCompleteQuiz`: keep the final answers, record the score in the
        session if there is one, and show the analysis view in any case. */
    method HandleCompleteQuiz(finalAnswers: Answers, finalScore: int)
      requires Valid()
      modifies this
      ensures Valid()
      ensures userAnswers == finalAnswers && view == AnalysisView
      ensures session == if old(session).Some? then Some(old(session).value.(currentScore := finalScore)) else None
      ensures user == old(user) && storedUser == old(storedUser) && isLoading == old(isLoading)
    {
      userAnswers := finalAnswers;
      if session.Some? {
        session := Some(session.value.(currentScore := finalScore));
      }
      view := AnalysisView;
    }

    /** `handleRetryWithWeaknesses`: start again with the session's files,
        grade, language and count, now aimed at `weaknesses`. */
    method HandleRetryWithWeaknesses(weaknesses: seq<string>, generated: Result<seq<Question>, Error>)
      returns (alert: Option<string>)
      requires Valid()
      modifies this
      ensures Valid()
      ensures user == old(user) && storedUser == old(storedUser) && !isLoading
      ensures old(session).None? || old(user).None? ==>
        session == old(session) && view == old(view) && userAnswers == old(userAnswers) && alert == None
      ensures old(session).Some? && old(user).Some? && generated.Success? && |generated.value| > 0 ==>
        var s := old(session).value;
        && session == Some(NewSession(old(user).value, s.files, s.grade, s.language, s.questionCount,
                                      generated.value, Some(weaknesses)))
        && userAnswers == QuizComponent.NoAnswers(|generated.value|)
        && view == QuizView
        && alert == None
      ensures old(session).Some? && old(user).Some? && !(generated.Success? && |generated.value| > 0) ==>
        && session == old(session) && view == old(view) && userAnswers == old(userAnswers)
        && alert == Some(AlertFor(StartFailureMessage(generated)))
    {
      alert := None;
      if session.Some? {
        var s := session.value;
        alert := HandleStartExam(s.files, s.grade, s.language, s.questionCount, Some(weaknesses), generated);
      }
    }

    /** `resetToSetup`: drop the session and show the setup view. */
    method ResetToSetup()
      requires Valid()
      modifies this
      ensures Valid()
      ensures session == None && view == SetupView
      ensures user == old(user) && storedUser == old(storedUser) && userAnswers == old(userAnswers)
      ensures isLoading == old(isLoading)
    {
      session := None;
      view := SetupView;
    }
  }

  /** A user who signed in is signed in again after a reload, when the
      stored text decodes back to that user. */
  method ReloadAfterLogin(u: User, encode: User -> string, decode: string -> StoredUserDecode)
    returns (restoredUser: Option<User>, restoredView: View)
    requires decode(encode(u)) == Decoded(Some(u))
    requires encode(u) != "" && encode(u) != "undefined"
    ensures restoredUser == Some(u) && restoredView == SetupView
  {
    var app := new App(None);
    app.HandleLogin(u, encode);
    var reloaded := new App(app.storedUser);
    reloaded.RestoreStoredUser(decode);
    restoredUser, restoredView := reloaded.user, reloaded.view;
  }

  /** A full round: sign in, start an exam that yields questions, finish it,
      and return to the setup view. */
  method ExamRound(u: User, encode: User -> string, files: seq<ReferenceFile>, grade: Grade,
                   language: Language, count: int, questions: seq<Question>, finalScore: int)
    returns (quizView: View, analysisView: View, finalSession: Option<ExamSession>)
    requires |questions| > 0
    ensures quizView == QuizView && analysisView == AnalysisView && finalSession == None
  {
    var app := new App(None);
    app.HandleLogin(u, encode);
    var alert := app.HandleStartExam(files, grade, language, count, None, Success(questions));
    quizView := app.view;
    var quiz := new QuizComponent.Quiz(app.session.value.questions);
    app.HandleCompleteQuiz(quiz.answers, quiz.score);
    assert app.session.value.currentScore == 0;
    analysisView := app.view;
    app.ResetToSetup();
    finalSession := app.session;
  }
}
