/** The records the client passes between its parts: uploaded files, exam
    parameters, generated questions, the signed-in user, the exam session and
    thrown errors. */
module Types {
  import opened Wrappers

  /** School grades: primary G1-G6 and secondary M1-M6. */
  datatype Grade = G1 | G2 | G3 | G4 | G5 | G6 | M1 | M2 | M3 | M4 | M5 | M6

  /** The grade as its string literal appears in a template. */
  function GradeName(g: Grade): string {
    match g
    case G1 => "G1" case G2 => "G2" case G3 => "G3"
    case G4 => "G4" case G5 => "G5" case G6 => "G6"
    case M1 => "M1" case M2 => "M2" case M3 => "M3"
    case M4 => "M4" case M5 => "M5" case M6 => "M6"
  }

  datatype Language = Thai | English

  function LanguageName(l: Language): string {
    match l
    case Thai => "Thai"
    case English => "English"
  }

  /** An uploaded document: `data` is the data URI the file reader produced. */
  datatype ReferenceFile = ReferenceFile(name: string, data: string, mimeType: string)

  /** A generated multiple-choice question. Nothing checks that `options` has
      four entries or that `correctIndex` indexes into it. */
  datatype Question = Question(
    id: string,
    text: string,
    options: seq<string>,
    correctIndex: int,
    explanation: string,
    topic: string)

  /** One recorded answer per question: the chosen option, or none (`null`). */
  type Answers = seq<Option<int>>

  datatype User = User(id: string, name: string, email: string, avatar: string)

  /** The state of one exam, built when generation succeeds. */
  datatype ExamSession = ExamSession(
    userId: string,
    files: seq<ReferenceFile>,
    grade: Grade,
    language: Language,
    questionCount: int,
    questions: seq<Question>,
    currentScore: int,
    weakTopicsFromPrevious: Option<seq<string>>)

  /** A thrown error object: an HTTP-like `status` when the SDK attaches one,
      and its `message`. */
  datatype Error = Error(status: Option<int>, message: string)
}
