/**
 * The quiz flow of the two quiz front ends: generating a quiz, taking it,
 * results and history, saving and resuming a quiz in progress, and the
 * smart-recall session. The module-level `let` variables of the source
 * become the fields of `QuizEngine`; the three `localStorage` keys become
 * the fields `savedState`, `history` and `deck`. `Variant` selects between
 * the modular copy and the single-file copy where the two behave differently.
 */
module QuizSession {
  import opened Common
  import opened Text
  import opened QuizTypes
  import opened Evaluator
  import opened Scheduler

  /** The parsed reply of a successful generation request. */
  datatype QuizContent = QuizContent(quizTitle: string, quizData: seq<Question>, summary: Option<string>)

  /**
   * How a generation request ends: a quiz; an exception thrown while reading
   * the document, encoding the image or calling the service; or (single-file
   * copy, where the reply is parsed after the image is committed) a reply that
   * is not JSON. In the modular copy the parse happens inside the service call,
   * so `Unparsable` behaves like `ServiceFailed` there.
   */
  datatype Reply = Generated(content: QuizContent) | ServiceFailed(message: string) | Unparsable(message: string)

  /** The error banner of the quiz creator. */
  datatype Notice = AiUnavailable | NoInitialContext | NothingToGenerateFrom | GenerationFailed(message: string)

  /** What the results page shows: score, pass or fail, seconds taken. */
  datatype ResultView = ResultView(score: nat, passed: bool, timeTaken: int)

  /** `userAnswers` holds one entry per question, and each verdict is the judge's. */
  predicate AnswersAligned(qs: seq<Question>, answers: seq<UserAnswer>) {
    |answers| == |qs| &&
    forall i :: 0 <= i < |answers| ==>
      answers[i].questionIndex == i && Judge(qs[i], answers[i].userAnswer) == Judged(answers[i].isCorrect)
  }

  predicate RunWellFormed(qs: seq<Question>, answers: seq<UserAnswer>, index: nat) {
    AnswersAligned(qs, answers) && (index < |qs| || index == 0)
  }

  /** A snapshot is only ever written for a non-empty quiz. */
  predicate SnapshotWellFormed(s: QuizState) {
    |s.quizData| > 0 && RunWellFormed(s.quizData, s.userAnswers, s.currentQuestionIndex) && s.summary != Some("")
  }

  predicate HistoryWellFormed(h: seq<HistoryEntry>) {
    forall k :: 0 <= k < |h| ==> 0 < h[k].total == |h[k].quizData| && h[k].score <= h[k].total
  }

  /** A fresh answer sheet is aligned with any quiz: nothing answered, nothing correct. */
  lemma FreshAligned(qs: seq<Question>)
    ensures AnswersAligned(qs, FreshAnswers(|qs|))
    ensures Score(FreshAnswers(|qs|)) == 0
  {
  }

  /** Recording a judged answer keeps the sheet aligned. */
  lemma RecordKeepsAligned(qs: seq<Question>, answers: seq<UserAnswer>, i: nat, a: Option<AnswerValue>)
    requires AnswersAligned(qs, answers) && i < |qs| && Judge(qs[i], a).Judged?
    ensures AnswersAligned(qs, answers[i := UserAnswer(i, a, Judge(qs[i], a).correct)])
  {
  }

  /** Nothing to generate from: no prompt text, no document, no image. */
  predicate Blank(c: QuizContext) {
    c.prompt == "" && c.file.None? && c.image.None?
  }

  /**
   * The early refusals of `generateQuiz`, in the order each copy checks them:
   * the modular copy checks for the AI client first, the single-file copy last.
   */
  function Refusal(v: Variant, ctx: Option<QuizContext>, aiAvailable: bool): (r: Option<Notice>)
    ensures r == None <==> aiAvailable && ctx.Some? && !Blank(ctx.value)
    ensures v == Modular && !aiAvailable ==> r == Some(AiUnavailable)
    ensures v == SingleFile && ctx == None ==> r == Some(NoInitialContext)
  {
    match v
    case Modular =>
      if !aiAvailable then Some(AiUnavailable)
      else if ctx.None? then Some(NoInitialContext)
      else if Blank(ctx.value) then Some(NothingToGenerateFrom)
      else None
    case SingleFile =>
      if ctx.None? then Some(NoInitialContext)
      else if Blank(ctx.value) then Some(NothingToGenerateFrom)
      else if !aiAvailable then Some(AiUnavailable)
      else None
  }

  /** The same request can be refused with a different message by the two copies. */
  lemma RefusalOrderDiffers()
    ensures Refusal(Modular, None, false) != Refusal(SingleFile, None, false)
  {
  }

  /** A generated summary is kept only when it is non-empty (`quizContent.summary` is truthy). */
  function KeptSummary(s: Option<string>): (r: Option<string>)
    ensures r != Some("")
    ensures r.Some? ==> r == s
    ensures s.Some? && s.value != "" ==> r == s
  {
    if s == Some("") then None else s
  }

  /**
   * The feedback shown after a wrong Ordering or Matching answer joins or
   * maps the question's `correctAnswer`, which throws when that is a string.
   */
  predicate FeedbackThrows(q: Question, correct: bool) {
    !correct && (q.questionType == Ordering || q.questionType == Matching) && q.correctAnswer.Text?
  }

  /** A well-shaped question never makes the feedback throw. */
  lemma WellShapedFeedback(q: Question, correct: bool)
    requires WellShaped(q)
    ensures !FeedbackThrows(q, correct)
  {
  }

  /**
   * An Ordering answer judged against a string `correctAnswer` is wrong, and
   * its feedback then throws: the answer is recorded but never saved.
   */
  lemma StringOrderingFeedbackThrows(q: Question, xs: seq<string>)
    requires q.questionType == Ordering && q.correctAnswer.Text?
    ensures Judge(q, Some(Items(xs))) == Judged(false)
    ensures FeedbackThrows(q, Judge(q, Some(Items(xs))).correct)
  {
  }

  /** Whole seconds since the quiz started, or 0 when no start time is recorded. */
  function Elapsed(startTime: Option<Millis>, now: Millis): int {
    if startTime.Some? then (now - startTime.value) / 1000 else 0
  }

  class QuizEngine {
    var quizData: seq<Question>
    var userAnswers: seq<UserAnswer>
    var quizTitle: string
    var quizSummary: Option<string>
    var currentQuestionIndex: nat
    var startTime: Option<Millis>
    var selectedFile: Option<Upload>
    var selectedImageFile: Option<string>
    var initialContext: Option<QuizContext>
    /** The active page of the quiz flow (the element carrying `.active`). */
    var activePage: Page
    var dueRecallItems: seq<RecallItem>
    var currentRecallIndex: nat
    var notice: Option<Notice>
    var shownResult: Option<ResultView>
    /** localStorage `interactiveQuizState` */
    var savedState: Option<QuizState>
    /** localStorage `interactiveQuizHistory`, newest first */
    var history: seq<HistoryEntry>
    /** localStorage `interactiveQuizRecallDeck` */
    var deck: seq<RecallItem>

    ghost predicate Valid()
      reads this
    {
      RunWellFormed(quizData, userAnswers, currentQuestionIndex)
      && quizSummary != Some("")
      && (savedState.Some? ==> SnapshotWellFormed(savedState.value))
      && HistoryWellFormed(history)
      && DeckScheduled(deck)
    }

    /** The snapshot `saveQuizState` writes. */
    function Snapshot(): (s: QuizState)
      reads this
      ensures s.quizData == quizData && s.userAnswers == userAnswers && s.currentPageId == activePage
    {
      QuizState(quizData, userAnswers, quizTitle, activePage, selectedImageFile, currentQuestionIndex, startTime, quizSummary)
    }

    /** What `saveQuizState` leaves under its key, given what was there: an empty quiz is not saved. */
    function Saved(prev: Option<QuizState>): Option<QuizState>
      reads this
    {
      if |quizData| == 0 then prev else Some(Snapshot())
    }

    function Verdict(now: Millis): (r: ResultView)
      reads this
      ensures r.passed ==> |quizData| > 0 && r.score > 0
    {
      var score := Score(userAnswers);
      ResultView(score, Passed(score, |quizData|), Elapsed(startTime, now))
    }

    /** The entry `saveQuizResultToHistory` puts at the front of the log. */
    function ResultEntry(now: Millis): (r: HistoryEntry)
      reads this
      ensures r.title != "" && (quizTitle != "" ==> r.title == quizTitle)
      ensures r.total == |quizData| && r.quizData == quizData && r.score <= |userAnswers| && r.date == now
    {
      HistoryEntry(if quizTitle == "" then "Untitled Quiz" else quizTitle,
                   Score(userAnswers), |quizData|, now, quizData, Elapsed(startTime, now))
    }

    /** The history log after `saveQuizResultToHistory`: unchanged for an empty quiz. */
    function Logged(prev: seq<HistoryEntry>, now: Millis): (r: seq<HistoryEntry>)
      reads this
      ensures |quizData| == 0 <==> r == prev
      ensures |quizData| > 0 ==> |r| == |prev| + 1 && r[0] == ResultEntry(now) && r[1..] == prev
    {
      if |quizData| == 0 then prev else [ResultEntry(now)] + prev
    }

    /** What a new, non-variation request is generated from: the trimmed form and the chosen files. */
    function FormContext(promptText: string, subjectText: string): QuizContext
      reads this
    {
      QuizContext(Trim(promptText), selectedFile, selectedImageFile, Trim(subjectText))
    }

    function Requested(isVariation: bool, promptText: string, subjectText: string): Option<QuizContext>
      reads this
    {
      if isVariation then initialContext else Some(FormContext(promptText, subjectText))
    }

    /** Page load: nothing in memory, storage as a previous visit left it. */
    constructor(saved: Option<QuizState>, log: seq<HistoryEntry>, recallDeck: seq<RecallItem>)
      requires saved.Some? ==> SnapshotWellFormed(saved.value)
      requires HistoryWellFormed(log) && DeckScheduled(recallDeck)
      ensures Valid()
      ensures quizData == [] && userAnswers == [] && startTime == None && activePage == Landing
      ensures savedState == saved && history == log && deck == recallDeck
    {
      quizData := [];
      userAnswers := [];
      quizTitle := "";
      quizSummary := None;
      currentQuestionIndex := 0;
      startTime := None;
      selectedFile := None;
      selectedImageFile := None;
      initialContext := None;
      activePage := Landing;
      dueRecallItems := [];
      currentRecallIndex := 0;
      notice := None;
      shownResult := None;
      savedState := saved;
      history := log;
      deck := recallDeck;
    }

    /** `saveQuizState` / `saveState`. */
    method SaveQuizState()
      requires Valid()
      modifies this`savedState
      ensures Valid()
      ensures savedState == Saved(old(savedState))
    {
      if |quizData| > 0 {
        savedState := Some(Snapshot());
      }
    }

    /** `loadQuizState` / `loadState`. */
    function LoadQuizState(): (s: Option<QuizState>)
      reads this
      ensures Valid() && s.Some? ==> SnapshotWellFormed(s.value)
    {
      savedState
    }

    /** `clearQuizState` / `clearState`, also the "start afresh" answer to the resume prompt. */
    method ClearQuizState()
      requires Valid()
      modifies this`savedState, this`startTime, this`quizSummary
      ensures Valid()
      ensures savedState == None && startTime == None && quizSummary == None
    {
      savedState := None;
      startTime := None;
      quizSummary := None;
    }

    /** `showQuizPage` / `showPage`: activate a page, then save. */
    method ShowQuizPage(p: Page)
      requires Valid()
      modifies this`activePage, this`savedState
      ensures Valid()
      ensures activePage == p
      ensures savedState == Saved(old(savedState))
    {
      activePage := p;
      SaveQuizState();
    }

    /** `setupQuizUI` / `setupQuiz`: set the title and show the landing page. */
    method SetupQuizUI(title: string)
      requires Valid()
      modifies this`quizTitle, this`activePage, this`savedState
      ensures Valid()
      ensures quizTitle == title && activePage == Landing
      ensures savedState == Saved(old(savedState))
    {
      quizTitle := title;
      ShowQuizPage(Landing);
    }

    /** `saveQuizResultToHistory`: log the finished quiz, newest first; an empty quiz is not logged. */
    method SaveQuizResultToHistory(now: Millis)
      requires Valid()
      modifies this`history
      ensures Valid()
      ensures history == Logged(old(history), now)
      ensures |quizData| > 0 ==> history[0].score <= history[0].total == |quizData| && history[1..] == old(history)
    {
      if |quizData| > 0 {
        history := [ResultEntry(now)] + history;
      }
    }

    /** `displayResults`: score, verdict and time taken, logged to history; shows the results page. */
    method DisplayResults(now: Millis)
      requires Valid()
      modifies this`shownResult, this`history, this`activePage, this`savedState
      ensures Valid()
      ensures shownResult == Some(Verdict(now))
      ensures history == Logged(old(history), now)
      ensures activePage == Results
      ensures savedState == Saved(old(savedState))
    {
      shownResult := Some(Verdict(now));
      SaveQuizResultToHistory(now);
      ShowQuizPage(Results);
    }

    /**
     * `displayCurrentQuestion`: renders the current question; past the last one
     * (only possible for an empty quiz) it shows the results instead.
     */
    method DisplayCurrentQuestion(now: Millis)
      requires Valid()
      modifies this`shownResult, this`history, this`activePage, this`savedState
      ensures Valid()
      ensures |quizData| > 0 ==> activePage == old(activePage) && shownResult == old(shownResult)
      ensures |quizData| == 0 ==> activePage == Results && shownResult == Some(Verdict(now))
      ensures history == old(history) && savedState == old(savedState)
    {
      if currentQuestionIndex >= |quizData| {
        DisplayResults(now);
      }
    }

    /**
     * The part of `generateQuiz` after its checks have passed: hide the error,
     * clear the saved quiz, then commit the reply generated from `image`.
     */
    method Generate(v: Variant, image: Option<string>, reply: Reply, cancelled: bool)
      requires Valid()
      modifies this`notice, this`savedState, this`startTime, this`quizSummary,
               this`selectedImageFile, this`quizData, this`userAnswers, this`currentQuestionIndex,
               this`quizTitle, this`activePage
      ensures Valid()
      // the saved quiz is cleared before the request is made
      ensures cancelled || !reply.Generated? ==>
        savedState == None && startTime == None && quizSummary == None &&
        quizData == old(quizData) && userAnswers == old(userAnswers) && quizTitle == old(quizTitle) &&
        currentQuestionIndex == old(currentQuestionIndex) && activePage == old(activePage)
      ensures cancelled ==> notice == None && selectedImageFile == old(selectedImageFile)
      ensures !cancelled && !reply.Generated? ==>
        notice == Some(GenerationFailed(reply.message)) &&
        selectedImageFile == (if v == SingleFile && reply.Unparsable? then image else old(selectedImageFile))
      // generated: a fresh, unstarted quiz on the landing page, saved
      ensures !cancelled && reply.Generated? ==>
        notice == None && quizData == reply.content.quizData &&
        userAnswers == FreshAnswers(|quizData|) && currentQuestionIndex == 0 &&
        quizTitle == reply.content.quizTitle && quizSummary == KeptSummary(reply.content.summary) &&
        selectedImageFile == image && startTime == None && activePage == Landing &&
        savedState == (if |quizData| == 0 then None else Some(Snapshot()))
    {
      notice := None;
      ClearQuizState();
      if cancelled {
        return;
      }
      match reply
      case ServiceFailed(message) =>
        notice := Some(GenerationFailed(message));
      case Unparsable(message) =>
        if v == SingleFile {
          selectedImageFile := image;
        }
        notice := Some(GenerationFailed(message));
      case Generated(content) =>
        CommitQuiz(image, content);
    }

    /** The success path of `generateQuiz`: install the generated quiz, unstarted, on the landing page. */
    method CommitQuiz(image: Option<string>, content: QuizContent)
      requires Valid()
      modifies this`quizSummary, this`selectedImageFile, this`quizData, this`userAnswers,
               this`currentQuestionIndex, this`quizTitle, this`activePage, this`savedState
      ensures Valid()
      ensures quizData == content.quizData && userAnswers == FreshAnswers(|quizData|)
      ensures currentQuestionIndex == 0 && quizTitle == content.quizTitle
      ensures quizSummary == KeptSummary(content.summary) && selectedImageFile == image
      ensures activePage == Landing && savedState == Saved(old(savedState))
    {
      selectedImageFile := image;
      quizSummary := KeptSummary(content.summary);
      quizData := content.quizData;
      userAnswers := FreshAnswers(|quizData|);
      FreshAligned(quizData);
      currentQuestionIndex := 0;
      SetupQuizUI(content.quizTitle);
    }

    /**
     * A generation request (`generateQuiz`). `aiAvailable` says whether the AI
     * client exists, `reply` is how the asynchronous work ends and `cancelled`
     * whether Cancel was pressed while it ran. A refused request shows its
     * error and changes nothing else; an accepted one is `Generate`.
     */
    method GenerateQuiz(v: Variant, isVariation: bool, promptText: string, subjectText: string,
                        aiAvailable: bool, reply: Reply, cancelled: bool)
      requires Valid()
      modifies this`initialContext, this`notice, this`savedState, this`startTime, this`quizSummary,
               this`selectedImageFile, this`quizData, this`userAnswers, this`currentQuestionIndex,
               this`quizTitle, this`activePage
      ensures Valid()
      // the form becomes the remembered context once the (modular) AI check has passed
      ensures initialContext ==
        if !isVariation && (v == SingleFile || aiAvailable) then Some(old(FormContext(promptText, subjectText)))
        else old(initialContext)
      ensures var r := Refusal(v, old(Requested(isVariation, promptText, subjectText)), aiAvailable);
        r.Some? ==>
          notice == r && savedState == old(savedState) &&
          quizData == old(quizData) && userAnswers == old(userAnswers) &&
          startTime == old(startTime) && quizSummary == old(quizSummary) &&
          selectedImageFile == old(selectedImageFile) && activePage == old(activePage) &&
          quizTitle == old(quizTitle) && currentQuestionIndex == old(currentQuestionIndex)
      ensures var ctx := old(Requested(isVariation, promptText, subjectText));
        Refusal(v, ctx, aiAvailable).None? && !cancelled && reply.Generated? ==>
          notice == None && quizData == reply.content.quizData && userAnswers == FreshAnswers(|quizData|) &&
          currentQuestionIndex == 0 && quizTitle == reply.content.quizTitle &&
          quizSummary == KeptSummary(reply.content.summary) && startTime == None &&
          selectedImageFile == ctx.value.image && activePage == Landing &&
          savedState == (if |quizData| == 0 then None else Some(Snapshot()))
      ensures var ctx := old(Requested(isVariation, promptText, subjectText));
        Refusal(v, ctx, aiAvailable).None? && (cancelled || !reply.Generated?) ==>
          savedState == None && startTime == None && quizSummary == None &&
          quizData == old(quizData) && userAnswers == old(userAnswers) && quizTitle == old(quizTitle) &&
          currentQuestionIndex == old(currentQuestionIndex) && activePage == old(activePage) &&
          notice == (if cancelled then None else Some(GenerationFailed(reply.message))) &&
          selectedImageFile ==
            (if !cancelled && v == SingleFile && reply.Unparsable? then ctx.value.image else old(selectedImageFile))
    {
      var ctx := CheckRequest(v, isVariation, promptText, subjectText, aiAvailable);
      if ctx.Some? {
        Generate(v, ctx.value.image, reply, cancelled);
      }
    }

    /**
     * The checks at the start of `generateQuiz`, in the order of each copy:
     * the context the request is made from, or `None` with the refusal shown.
     */
    method CheckRequest(v: Variant, isVariation: bool, promptText: string, subjectText: string, aiAvailable: bool)
      returns (ctx: Option<QuizContext>)
      requires Valid()
      modifies this`initialContext, this`notice
      ensures Valid()
      ensures initialContext ==
        if !isVariation && (v == SingleFile || aiAvailable) then Some(old(FormContext(promptText, subjectText)))
        else old(initialContext)
      ensures var r := Refusal(v, old(Requested(isVariation, promptText, subjectText)), aiAvailable);
        if r.Some? then ctx.None? && notice == r
        else ctx == old(Requested(isVariation, promptText, subjectText)) && ctx.Some? && notice == old(notice)
    {
      if v == Modular && !aiAvailable {
        notice := Some(AiUnavailable);
        return None;
      }
      if isVariation {
        ctx := initialContext;
      } else {
        ctx := Some(FormContext(promptText, subjectText));
        initialContext := ctx;
      }
      if ctx.None? {
        notice := Some(NoInitialContext);
        return None;
      }
      if Blank(ctx.value) {
        notice := Some(NothingToGenerateFrom);
        return None;
      }
      if !aiAvailable {
        notice := Some(AiUnavailable);
        return None;
      }
    }

    /** The Start button: restart the clock at the first question and show the quiz page. */
    method Start(now: Millis)
      requires Valid()
      modifies this`currentQuestionIndex, this`startTime, this`shownResult, this`history,
               this`activePage, this`savedState
      ensures Valid()
      ensures currentQuestionIndex == 0 && startTime == Some(now) && activePage == QuizPage
      ensures savedState == Saved(old(savedState)) && history == old(history)
      ensures |quizData| > 0 ==> shownResult == old(shownResult)
      ensures |quizData| == 0 ==> shownResult == Some(Verdict(now))
    {
      currentQuestionIndex := 0;
      startTime := Some(now);
      DisplayCurrentQuestion(now);
      ShowQuizPage(QuizPage);
    }

    /**
     * `submitAnswer`: read, judge and record the answer to the current
     * question, show the feedback, then save. When judging throws nothing is
     * recorded; when the feedback throws the answer is recorded but not saved.
     */
    method SubmitAnswer(r: Response)
      requires Valid() && currentQuestionIndex < |quizData|
      modifies this`userAnswers, this`savedState
      ensures Valid()
      ensures var i := currentQuestionIndex;
              var a := Extract(quizData[i].questionType, r);
              Judge(quizData[i], a).Judged? ==>
                userAnswers == old(userAnswers)[i := UserAnswer(i, a, Judge(quizData[i], a).correct)]
      ensures var i := currentQuestionIndex;
              var o := Judge(quizData[i], Extract(quizData[i].questionType, r));
              o.Judged? && !FeedbackThrows(quizData[i], o.correct) ==> savedState == Some(Snapshot())
      ensures var i := currentQuestionIndex;
              var o := Judge(quizData[i], Extract(quizData[i].questionType, r));
              o.Judged? && FeedbackThrows(quizData[i], o.correct) ==> savedState == old(savedState)
      ensures var i := currentQuestionIndex;
              Judge(quizData[i], Extract(quizData[i].questionType, r)) == Throws ==>
                userAnswers == old(userAnswers) && savedState == old(savedState)
    {
      var i := currentQuestionIndex;
      var a := Extract(quizData[i].questionType, r);
      var o := Judge(quizData[i], a);
      if o == Throws {
        return;
      }
      RecordKeepsAligned(quizData, userAnswers, i, a);
      userAnswers := userAnswers[i := UserAnswer(i, a, o.correct)];
      if FeedbackThrows(quizData[i], o.correct) {
        return;
      }
      SaveQuizState();
    }

    /** The Next / Finish button shown after an answer. Moving on does not save. */
    method Next(now: Millis)
      requires Valid() && currentQuestionIndex < |quizData|
      modifies this`currentQuestionIndex, this`shownResult, this`history, this`activePage, this`savedState
      ensures Valid()
      ensures old(currentQuestionIndex) < |quizData| - 1 ==>
        currentQuestionIndex == old(currentQuestionIndex) + 1 && shownResult == old(shownResult) &&
        activePage == old(activePage) && history == old(history) && savedState == old(savedState)
      ensures old(currentQuestionIndex) == |quizData| - 1 ==>
        currentQuestionIndex == old(currentQuestionIndex) && activePage == Results &&
        shownResult == Some(Verdict(now)) && history == [ResultEntry(now)] + old(history) &&
        savedState == Some(Snapshot())
    {
      if currentQuestionIndex >= |quizData| - 1 {
        DisplayResults(now);
      } else {
        currentQuestionIndex := currentQuestionIndex + 1;
        DisplayCurrentQuestion(now);
      }
    }

    /** The Retake button: a fresh answer sheet for the same quiz, then Start. */
    method Retake(now: Millis)
      requires Valid()
      modifies this`userAnswers, this`currentQuestionIndex, this`startTime, this`shownResult,
               this`history, this`activePage, this`savedState
      ensures Valid()
      ensures userAnswers == FreshAnswers(|quizData|) && Score(userAnswers) == 0
      ensures currentQuestionIndex == 0 && startTime == Some(now) && activePage == QuizPage
      ensures savedState == Saved(old(savedState)) && history == old(history)
      ensures shownResult == if |quizData| == 0 then Some(Verdict(now)) else old(shownResult)
    {
      userAnswers := FreshAnswers(|quizData|);
      FreshAligned(quizData);
      Start(now);
    }

    /** `startQuizFromData`: load a quiz, set it up, and press Start. */
    method StartQuizFromData(data: seq<Question>, title: string, now: Millis)
      requires Valid()
      modifies this`quizData, this`userAnswers, this`currentQuestionIndex, this`quizTitle,
               this`startTime, this`shownResult, this`history, this`activePage, this`savedState
      ensures Valid()
      ensures quizData == data && userAnswers == FreshAnswers(|data|) && quizTitle == title
      ensures currentQuestionIndex == 0 && startTime == Some(now) && activePage == QuizPage
      ensures history == old(history)
      ensures savedState == if data == [] then old(savedState) else Some(Snapshot())
      ensures shownResult == if data == [] then Some(Verdict(now)) else old(shownResult)
    {
      quizData := data;
      userAnswers := FreshAnswers(|data|);
      FreshAligned(data);
      currentQuestionIndex := 0;
      SetupQuizUI(title);
      Start(now);
    }

    /** The Retake button of a history entry; an index outside the log does nothing. */
    method RetakeFromHistory(index: int, now: Millis)
      requires Valid()
      modifies this`quizData, this`userAnswers, this`currentQuestionIndex, this`quizTitle,
               this`startTime, this`shownResult, this`history, this`activePage, this`savedState
      ensures Valid()
      ensures history == old(history)
      ensures 0 <= index < |history| ==>
        quizData == history[index].quizData && quizTitle == history[index].title &&
        userAnswers == FreshAnswers(|quizData|) && currentQuestionIndex == 0 &&
        activePage == QuizPage && startTime == Some(now) &&
        savedState == (if quizData == [] then old(savedState) else Some(Snapshot())) &&
        shownResult == (if quizData == [] then Some(Verdict(now)) else old(shownResult))
      ensures !(0 <= index < |history|) ==>
        quizData == old(quizData) && userAnswers == old(userAnswers) && activePage == old(activePage) &&
        savedState == old(savedState) && currentQuestionIndex == old(currentQuestionIndex) &&
        quizTitle == old(quizTitle) && startTime == old(startTime) && shownResult == old(shownResult)
    {
      if index > -1 && index < |history| {
        var entry := history[index];
        StartQuizFromData(entry.quizData, entry.title, now);
      }
    }

    /** `displayReview`: shows the review page, then saves. */
    method DisplayReview()
      requires Valid()
      modifies this`activePage, this`savedState
      ensures Valid()
      ensures activePage == Review && savedState == Saved(old(savedState))
    {
      ShowQuizPage(Review);
    }

    /**
     * `displayHistory`: shows the history page; the single-file copy stays
     * where it is when the log is empty.
     */
    method DisplayHistory(v: Variant)
      requires Valid()
      modifies this`activePage, this`savedState
      ensures Valid()
      ensures v == SingleFile && history == [] ==> activePage == old(activePage) && savedState == old(savedState)
      ensures v == Modular || history != [] ==> activePage == HistoryPage && savedState == Saved(old(savedState))
    {
      if v == SingleFile && history == [] {
        return;
      }
      ShowQuizPage(HistoryPage);
    }

    /** The first lines of `resumeQuiz`: the quiz fields come back from the snapshot. */
    method Restore(s: QuizState)
      requires Valid() && SnapshotWellFormed(s)
      modifies this`quizData, this`userAnswers, this`currentQuestionIndex, this`startTime, this`quizSummary
      ensures Valid()
      ensures quizData == s.quizData && userAnswers == s.userAnswers
      ensures currentQuestionIndex == s.currentQuestionIndex && startTime == s.startTime
      ensures quizSummary == s.summary
    {
      quizData := s.quizData;
      userAnswers := s.userAnswers;
      currentQuestionIndex := s.currentQuestionIndex;
      startTime := s.startTime;
      quizSummary := KeptSummary(s.summary);
    }

    /**
     * The last lines of `resumeQuiz`: return to the saved page. The modular
     * copy activates the page without saving and then redraws it; the
     * single-file copy shows an unrecognised page as the landing page.
     */
    method ShowRestored(v: Variant, target: Page, now: Millis)
      requires Valid() && currentQuestionIndex < |quizData|
      modifies this`activePage, this`shownResult, this`history, this`savedState
      ensures Valid()
      ensures target in {QuizPage, Review, Results, Landing} ==> activePage == target
      ensures target == HistoryPage || target == RecallPage ==>
        activePage == (if v == Modular then target else Landing)
      ensures target == Results ==> history == [ResultEntry(now)] + old(history) && shownResult == Some(Verdict(now))
      ensures target != Results ==> history == old(history) && shownResult == old(shownResult)
      ensures savedState ==
        if v == Modular && target != Results && target != Review then old(savedState) else Some(Snapshot())
    {
      match v {
        case Modular =>
          activePage := target;
          match target {
            case QuizPage => DisplayCurrentQuestion(now);
            case Results => DisplayResults(now);
            case Review => DisplayReview();
            case _ =>
          }
        case SingleFile =>
          match target {
            case QuizPage =>
              DisplayCurrentQuestion(now);
              ShowQuizPage(QuizPage);
            case Results => DisplayResults(now);
            case Review => DisplayReview();
            case _ => ShowQuizPage(Landing);
          }
      }
    }

    /**
     * The resume prompt's Yes button: `loadQuizState` then `resumeQuiz`.
     * `imageReadable` says whether the saved image data URL can be fetched back;
     * when it cannot, the awaited fetch throws after the quiz fields are
     * restored and before the page is set up.
     */
    method Resume(v: Variant, imageReadable: bool, now: Millis)
      requires Valid()
      modifies this`quizData, this`userAnswers, this`currentQuestionIndex, this`startTime,
               this`quizSummary, this`selectedImageFile, this`quizTitle, this`activePage,
               this`shownResult, this`history, this`savedState
      ensures Valid()
      ensures old(savedState) == None ==>
        quizData == old(quizData) && userAnswers == old(userAnswers) && activePage == old(activePage) &&
        savedState == None && history == old(history) && quizTitle == old(quizTitle) &&
        currentQuestionIndex == old(currentQuestionIndex) && startTime == old(startTime) &&
        quizSummary == old(quizSummary) && selectedImageFile == old(selectedImageFile) &&
        shownResult == old(shownResult)
      // the quiz comes back as it was saved
      ensures old(savedState).Some? ==>
        var s := old(savedState).value;
        quizData == s.quizData && userAnswers == s.userAnswers &&
        currentQuestionIndex == s.currentQuestionIndex && startTime == s.startTime &&
        quizSummary == s.summary
      ensures old(savedState).Some? && (old(savedState).value.selectedImageFile.None? || imageReadable) ==>
        var s := old(savedState).value;
        selectedImageFile == s.selectedImageFile && quizTitle == s.quizTitle &&
        (s.currentPageId in {QuizPage, Review, Results, Landing} ==> activePage == s.currentPageId) &&
        (s.currentPageId == HistoryPage || s.currentPageId == RecallPage ==>
           activePage == (if v == Modular then s.currentPageId else Landing)) &&
        (s.currentPageId == Results ==> history == [ResultEntry(now)] + old(history)) &&
        (s.currentPageId != Results ==> history == old(history)) &&
        shownResult == (if s.currentPageId == Results then Some(Verdict(now)) else old(shownResult)) &&
        savedState ==
          (if v == Modular && s.currentPageId != Results && s.currentPageId != Review
           then Some(Snapshot().(currentPageId := Landing)) else Some(Snapshot()))
      ensures old(savedState).Some? && old(savedState).value.selectedImageFile.Some? && !imageReadable ==>
        activePage == old(activePage) && savedState == old(savedState) && history == old(history) &&
        quizTitle == old(quizTitle) && selectedImageFile == old(selectedImageFile) && shownResult == old(shownResult)
    {
      var loaded := LoadQuizState();
      if loaded.None? {
        return;
      }
      var s := loaded.value;
      Restore(s);
      if s.selectedImageFile.Some? && !imageReadable {
        return;
      }
      Reopen(v, s, now);
    }

    /** The rest of `resumeQuiz` once the image is back: the title, then the saved page. */
    method Reopen(v: Variant, s: QuizState, now: Millis)
      requires Valid() && currentQuestionIndex < |quizData|
      modifies this`selectedImageFile, this`quizTitle, this`activePage, this`shownResult, this`history, this`savedState
      ensures Valid()
      ensures selectedImageFile == s.selectedImageFile && quizTitle == s.quizTitle
      ensures s.currentPageId in {QuizPage, Review, Results, Landing} ==> activePage == s.currentPageId
      ensures s.currentPageId == HistoryPage || s.currentPageId == RecallPage ==>
        activePage == (if v == Modular then s.currentPageId else Landing)
      ensures s.currentPageId == Results ==> history == [ResultEntry(now)] + old(history)
      ensures s.currentPageId != Results ==> history == old(history)
      ensures shownResult == if s.currentPageId == Results then Some(Verdict(now)) else old(shownResult)
      // the title is saved from the landing page; the modular copy then moves on without saving again
      ensures savedState ==
        if v == Modular && s.currentPageId != Results && s.currentPageId != Review
        then Some(Snapshot().(currentPageId := Landing)) else Some(Snapshot())
    {
      selectedImageFile := s.selectedImageFile;
      SetupQuizUI(s.quizTitle);
      ShowRestored(v, s.currentPageId, now);
    }

    /** `handleNewQuiz`: forget the quiz, its context and the chosen files. */
    method HandleNewQuiz()
      requires Valid()
      modifies this`savedState, this`startTime, this`quizSummary, this`initialContext,
               this`selectedFile, this`selectedImageFile
      ensures Valid()
      ensures savedState == None && startTime == None && quizSummary == None
      ensures initialContext == None && selectedFile == None && selectedImageFile == None
    {
      ClearQuizState();
      initialContext := None;
      selectedFile := None;
      selectedImageFile := None;
    }

    /** `addQuestionToRecall`: add a reviewed question to the deck unless it is already there. */
    method AddQuestionToRecall(questionIndex: nat, now: Millis)
      requires Valid() && questionIndex < |quizData|
      modifies this`deck
      ensures Valid()
      ensures deck == Added(old(deck), quizData[questionIndex], now)
    {
      var q := quizData[questionIndex];
      AddedKeepsScheduled(deck, q, now);
      if Contains(deck, q) {
        return;
      }
      deck := deck + [NewItem(q, now)];
    }

    /** `updateRecallItem`: regrade the item with this id; an unknown id changes nothing. */
    method UpdateRecallItem(itemId: int, p: Performance, now: Millis)
      requires Valid()
      modifies this`deck
      ensures Valid()
      ensures deck == Regraded(old(deck), itemId, p, now)
    {
      RegradedKeepsScheduled(deck, itemId, p, now);
      var i := FindIndex(deck, itemId);
      if i == -1 {
        return;
      }
      deck := deck[i := Apply(deck[i], p, now)];
    }

    /** `startRecallSession`: collect what is due; with nothing due the page stays as it is. */
    method StartRecallSession(now: Millis)
      requires Valid()
      modifies this`dueRecallItems, this`currentRecallIndex, this`activePage, this`savedState
      ensures Valid()
      ensures dueRecallItems == Due(deck, now)
      ensures dueRecallItems == [] ==>
        currentRecallIndex == old(currentRecallIndex) && activePage == old(activePage) && savedState == old(savedState)
      ensures dueRecallItems != [] ==>
        currentRecallIndex == 0 && activePage == RecallPage && savedState == Saved(old(savedState))
    {
      dueRecallItems := Due(deck, now);
      if |dueRecallItems| == 0 {
        return;
      }
      currentRecallIndex := 0;
      ShowQuizPage(RecallPage);
    }

    /**
     * A click in the recall feedback bar. The modular copy reads the button's
     * `data-perf` and ignores a click without one (`attribute == ""`); the
     * single-file copy reads the second `-`-separated field of the button id.
     */
    method RecallFeedback(v: Variant, attribute: string, now: Millis)
      requires Valid() && currentRecallIndex < |dueRecallItems|
      modifies this`deck, this`currentRecallIndex
      ensures Valid()
      ensures v == Modular && attribute == "" ==>
        deck == old(deck) && currentRecallIndex == old(currentRecallIndex)
      ensures v == SingleFile || attribute != "" ==>
        var p := if v == Modular then NamedPerformance(attribute) else ButtonPerformance(attribute);
        deck == Regraded(old(deck), dueRecallItems[old(currentRecallIndex)].id, p, now) &&
        currentRecallIndex == old(currentRecallIndex) + 1
    {
      var p: Performance;
      if v == Modular {
        if attribute == "" {
          return;
        }
        p := NamedPerformance(attribute);
      } else {
        p := ButtonPerformance(attribute);
      }
      UpdateRecallItem(dueRecallItems[currentRecallIndex].id, p, now);
      currentRecallIndex := currentRecallIndex + 1;
    }

    /** The recall session is over once the cursor has passed the last due item. */
    predicate RecallSessionOver()
      reads this
    {
      currentRecallIndex >= |dueRecallItems|
    }
  }

  /**
   * Saving and resuming give back the quiz in progress: answers, position,
   * clock, summary and the page it was on.
   */
  method SaveThenResume(e: QuizEngine, v: Variant, now: Millis)
    requires e.Valid() && |e.quizData| > 0
    requires e.activePage in {Landing, QuizPage, Results, Review}
    modifies e
    ensures e.Valid()
    ensures e.quizData == old(e.quizData) && e.userAnswers == old(e.userAnswers)
    ensures e.currentQuestionIndex == old(e.currentQuestionIndex) && e.startTime == old(e.startTime)
    ensures e.quizTitle == old(e.quizTitle) && e.activePage == old(e.activePage)
    ensures e.quizSummary == old(e.quizSummary)
  {
    e.SaveQuizState();
    e.Resume(v, true, now);
  }
}
