/**
 * The records the quiz engine keeps: generated questions, the answers given
 * to them, the persisted snapshot of a quiz in progress and the entries of
 * the quiz history.
 */
module QuizTypes {
  import opened Common

  /**
   * The two copies of the engine: the modular `quiz.ts` and the older
   * single-file `index-1.tsx`, which differ in a few places.
   */
  datatype Variant = Modular | SingleFile

  datatype QuestionType = MCQ | TrueFalse | ShortAnswer | Ordering | Matching

  /** One `{prompt, answer}` pair of a Matching question. */
  datatype MatchPair = MatchPair(prompt: string, answer: string)

  /**
   * The three shapes `correctAnswer` and a recorded `userAnswer` can take:
   * a string, a list of strings, or a list of pairs.
   */
  datatype AnswerValue = Text(text: string) | Items(items: seq<string>) | Pairs(pairs: seq<MatchPair>)

  /** A question as the generation service returns it; its shape is not validated. */
  datatype Question = Question(
    questionType: QuestionType,
    question: string,
    options: seq<string>,
    matchOptions: seq<string>,
    correctAnswer: AnswerValue,
    explanation: string,
    caseDescription: Option<string>,
    refersToUploadedImage: bool)

  /** The shape of `correctAnswer` the schema asks for, per question type. */
  predicate WellShaped(q: Question) {
    match q.questionType
    case Ordering => q.correctAnswer.Items?
    case Matching => q.correctAnswer.Pairs?
    case _ => q.correctAnswer.Text?
  }

  /** `userAnswer` is `None` when nothing was given (`null`). */
  datatype UserAnswer = UserAnswer(questionIndex: nat, userAnswer: Option<AnswerValue>, isCorrect: bool)

  /** The pages of the quiz flow, identified in the source by their element ids. */
  datatype Page = Landing | QuizPage | Results | Review | HistoryPage | RecallPage

  /** The snapshot of a quiz in progress kept under the `interactiveQuizState` key. */
  datatype QuizState = QuizState(
    quizData: seq<Question>,
    userAnswers: seq<UserAnswer>,
    quizTitle: string,
    currentPageId: Page,
    selectedImageFile: Option<string>,
    currentQuestionIndex: nat,
    startTime: Option<Millis>,
    summary: Option<string>)

  /** A document chosen in the quiz creator. */
  datatype Upload = Upload(name: string, mimeType: string)

  /**
   * What a quiz was generated from, kept so that a variation can be asked for
   * later; the image is held as its data URL.
   */
  datatype QuizContext = QuizContext(prompt: string, file: Option<Upload>, image: Option<string>, subject: string)

  /**
   * One finished quiz in the history log. The displayed percentage string,
   * the ISO date text and the constant `mode: 'Learning'` are not kept; the
   * time taken is in whole seconds.
   */
  datatype HistoryEntry = HistoryEntry(
    title: string,
    score: nat,
    total: nat,
    date: Millis,
    quizData: seq<Question>,
    timeTaken: int)
}
