# FULLSTUDY quiz and recall engine in Dafny

This project models the core of a client-side study application that runs in the browser. The core has these parts:

- a quiz generator and player;
- a spaced-repetition ("smart recall") deck;
- a chat tutor with a list of sessions;
- personal knowledge bases (PKBs), whose items are added to chat messages as context.

Each part is proved against the behaviour of its TypeScript source. The quiz engine exists in two copies:

- the modular `quiz.ts`;
- the older single-file `index-1.tsx`.

One model covers both. Where the copies behave differently, a `Variant` parameter (`Modular` or `SingleFile`) selects the behaviour.

Modules, one per file:

| file | module | what it holds |
|---|---|---|
| common.dfy | `Common` | `Option`, `Millis` (a positive clock reading), `Max` |
| text.dfy | `Text` | JavaScript white space and `trim`, ASCII `toLowerCase`, `split`/`join`, `replace` of one character, a lexicographic order, decimal digits |
| question.dfy | `QuizTypes` | `Question`, `AnswerValue`, `UserAnswer`, `QuizState`, `HistoryEntry`, `Page`, and the generation context |
| evaluator.dfy | `Evaluator` | reading the answer from the controls, judging it, score, answered count, and the pass rule |
| scheduler.dfy | `Scheduler` | `RecallItem`, how a recall grade reschedules an item, the due filter, and adding items to the deck |
| anki.dfy | `Anki` | the Anki card lines and the export file name |
| parts.dfy | `Parts` | request parts and the data-URL split of `fileToGenerativePart` |
| shuffle.dfy | `Shuffle` | the in-place Fisher–Yates shuffle over an `array` |
| session.dfy | `QuizSession` | class `QuizEngine`: the quiz flow state machine over the module-level variables and three storage keys |
| chat.dfy | `Chat` | class `ChatStore`: session ordering, sending, pin, rename and delete, and the message actions |
| pkb.dfy | `Pkb` | class `PkbRegistry`: bases, active ids, the content store, and the context assembly loop |

Inputs the core cannot compute are parameters. These are:

- the clock (`now`);
- whether the AI client exists;
- the generation service's reply, or its failure;
- whether Cancel was pressed;
- the token estimate;
- a chat title generated by the service;
- the streamed chunks;
- text extraction from documents;
- the random index `j` of each shuffle step;
- whether reading a file succeeded.

Browser storage (`localStorage` and IndexedDB) is modelled as fields:

- `savedState`, `history` and `deck` in `QuizEngine`;
- `saved` in `ChatStore`;
- `savedBases`, `savedActive` and `content` in `PkbRegistry`.

Ease factors are exact integers in hundredths: 2.5 is 250, the floor 1.3 is 130, and the steps are −20 and +15. Percentages are integer comparisons: a quiz passes when `100·score ≥ 60·total`.

Behaviour worth knowing:

- **Failed generation.** The saved snapshot, start time and summary are cleared before the service is called, so a failed generation has already lost them (`Generate`).
- **Unreadable image on resume.** When the saved image cannot be read back, the restored quiz fields stay but page setup never happens (`Resume` with `imageReadable == false`).
- **Duplicate Matching prompts.** The sort by prompt is stable, so two submitted pairs that share a prompt keep their submitted order, and that order decides the verdict (`MatchingSharedPromptOrderMatters`).
- **Starting an empty quiz.** Start accepts an empty quiz. The current-question display then falls through to the results page, and nothing is logged (`Start`).
- **Generated payload.** The shape of the generated payload is not checked. Judging an answer whose shape does not fit its question throws: a Matching answer compared with a list of two or more strings, or a typed answer compared with a list. Nothing is then recorded or saved (`Judge`, `SubmitAnswer`). A wrong answer to an Ordering or Matching question whose `correctAnswer` is a string is recorded, but the feedback display then throws while joining that string, so the progress is not saved (`SubmitAnswer`, `StringOrderingFeedbackThrows`). The export coerces ill-shaped values as template text does: a list of strings becomes its comma-joined text, a pair becomes `[object Object]`, and a string read as a pair gives `undefined` on both sides. It throws only when an Ordering or Matching `correctAnswer` is a string, and then nothing is exported (`Anki.AnswerText`, `Anki.Cards`, `Anki.ExportQuiz`).
- **No "retake from point".** Only chat messages can be regenerated; no quiz action truncates and retakes from a chosen question (`Chat.ChatStore.Regenerate`).

## Model

| member | source | states |
|---|---|---|
| Evaluator.Extract | quiz.ts:646-663 | choice questions record the checked value or null; a short answer records its trimmed text, and null exactly when that text is blank; Ordering and Matching always record their lists |
| Evaluator.ShortAnswerPadding | quiz.ts:653 | white space around the typed short answer does not change what is recorded |
| Evaluator.CorrectAnswerNotTrimmed | quiz.ts:673 | a `correctAnswer` that starts with white space can never be matched, because only the typed side is trimmed |
| Evaluator.Judge | quiz.ts:665-674 | only a truthy answer (not null, not "") can be correct; a correct Matching answer holds the same multiset of pairs as the correct answer; the judge throws only on a truthy answer, and then only for Matching or for a choice or typed question where either side is not a string |
| Evaluator.SortedCopy | quiz.ts:667-669 | copying and sorting fails (the comparator reads `prompt` of a string) exactly when the value is not a list of pairs and has two or more elements |
| Evaluator.Spread | quiz.ts:669 | `[...s]` of a string is the list of its one-character strings, one per character |
| Evaluator.WellShapedJudged | quiz.ts:665-674 | a well-shaped question with an answer of the shape its controls record is always judged, never throws |
| Evaluator.ListAnswerThrows | quiz.ts:673 | a choice or typed question whose `correctAnswer` is a list throws on every non-empty answer, because a list has no `toLowerCase` |
| Evaluator.StringPairsThrow | quiz.ts:667-672 | a Matching question whose `correctAnswer` is two or more strings throws once the answer has as many pairs |
| Evaluator.EmptyMatchingCorrect | quiz.ts:669-672 | an empty Matching answer is correct against an empty `correctAnswer` of any shape, since both are written `[]` |
| Evaluator.OrderingExact | quiz.ts:671 | an Ordering answer is correct iff it equals `correctAnswer` element by element, or both are empty lists |
| Evaluator.SortByPrompt | quiz.ts:667-670 | the sort by `prompt` yields a list sorted by prompt that is a permutation of its input |
| Evaluator.SortedUnique | quiz.ts:669 | two prompt-sorted lists with the same pairs and distinct prompts are equal, so comparing the sorted lists compares the pairs |
| Evaluator.MatchingIffSamePairs | quiz.ts:672 | with distinct prompts, a Matching answer is correct iff it holds exactly the correct pairs in any order |
| Evaluator.MatchingLengthMismatch | quiz.ts:672 | a Matching answer with another length than `correctAnswer` is judged incorrect, whatever its shape, without throwing |
| Evaluator.MatchingSharedPromptOrderMatters | quiz.ts:667-672 | when the correct answer is two distinct pairs that share a prompt, submitting the same pairs in the other order is judged incorrect |
| Evaluator.JudgeIgnoresCase | quiz.ts:673 | MCQ, TrueFalse and ShortAnswer ignore the case of the submitted answer |
| Evaluator.ToLowerSame | quiz.ts:673 | two strings lower-case to the same text exactly when they have the same length and each pair of characters is equal or one is the capital of the other |
| Evaluator.TextVerdict | quiz.ts:673 | a non-empty answer to an MCQ, TrueFalse or ShortAnswer question with a string `correctAnswer` is judged, and is correct exactly when it spells that answer up to letter case |
| Evaluator.Score | quiz.ts:749-751 | the score is at most the number of answers; it equals that number iff all are correct, and is 0 iff none is |
| Evaluator.Answered | quiz.ts:744 | the progress count is at most the number of answers, and 0 iff every `userAnswer` is null |
| Evaluator.FreshAnswers | quiz.ts:1073 | a fresh sheet has one null answer per question with matching indices, score 0 and answered count 0 |
| Evaluator.PassExtremes | quiz.ts:760-766 | an all-correct non-empty quiz passes the 60 % threshold; a quiz with no correct answer fails it |
| Evaluator.Passed | quiz.ts:759-766 | a pass needs a non-empty quiz and a positive score; a quiz whose score reaches its question count passes |
| Scheduler.Apply | quiz.ts:994-1000 | forgot: interval 1 and ease max(1.3, ease − 0.2); good: interval ⌈interval·ease⌉; easy: interval ⌈interval·ease·1.3⌉ and ease + 0.15; next review = now + interval days; id and question kept |
| Scheduler.ApplyKeepsScheduled | index-1.tsx:1450-1454 | every grade keeps ease ≥ 1.3 and interval ≥ 1 |
| Scheduler.GoodGrows | quiz.ts:997 | a good grade strictly lengthens the interval |
| Scheduler.EasyGrows | quiz.ts:998 | an easy grade strictly lengthens the interval and raises the ease |
| Scheduler.GradedNotDue | quiz.ts:1000 | a graded item is next due strictly after the moment of grading |
| Scheduler.FindIndex | quiz.ts:991 | the first index with the id, or −1 exactly when no item has it |
| Scheduler.Regraded | quiz.ts:989-1003 | the deck keeps its length; the first item with the id is the graded one, every other item is unchanged, and an unknown id changes nothing |
| Scheduler.RegradedKeepsScheduled | quiz.ts:989-1003 | regrading any id keeps the whole deck within the scheduling bounds |
| Scheduler.RegradedLeavesDue | quiz.ts:1000-1001 | right after grading, the graded item is not in the due list |
| Scheduler.Due | quiz.ts:967 | the due list holds exactly the deck items with `nextReviewDate ≤ now` |
| Scheduler.DueAppend | quiz.ts:967 | the due filter keeps deck order: filtering a concatenation concatenates the filtered parts |
| Scheduler.ContainsAppend | quiz.ts:983 | the duplicate test over a concatenated deck holds iff it holds for one of the parts |
| Scheduler.NewItem | quiz.ts:984 | a new item carries the question, takes the clock as its id, is due at once, and starts within the scheduling bounds with ease 2.5 |
| Scheduler.Added | quiz.ts:980-987 | afterwards the deck holds the question; the old deck is a prefix of the new one, at most one item longer, and it is unchanged iff it already held the question |
| Scheduler.AddedIdempotent | quiz.ts:983 | adding a question the deck already holds (deep-equal) leaves the deck as it is |
| Scheduler.AddedIsDue | quiz.ts:984-985 | a new question is appended with `nextReviewDate = now`, so it is due at once and comes last in the due list |
| Scheduler.AddedKeepsScheduled | quiz.ts:984 | a new item (interval 1, ease 2.5) keeps the deck within the scheduling bounds |
| Scheduler.ButtonGrade | index-1.tsx:1705 | the button `recall-<name>-btn` gives the grade its middle `-` segment names |
| Scheduler.NamedPerformance | quiz.ts:995-999 | only `forgot`, `good` and `easy` name a grade a rule handles; any other name matches no rule |
| Scheduler.ButtonPerformance | index-1.tsx:1705 | a button id without `-` gives no grade, since it has no second segment |
| Anki.AnswerText | quiz.ts:933-940 | there is an answer text unless building it throws, which happens exactly when an Ordering or Matching `correctAnswer` is a string |
| Anki.Arrow | quiz.ts:936 | the arrow between answer items is surrounded by spaces and holds no newline or tab, in both copies |
| Anki.MatchList | quiz.ts:938 | the list of match items is empty iff there are no pairs |
| Anki.MatchListAppend | quiz.ts:938 | the list items of two lists of pairs are the items of the first followed by those of the second |
| Anki.WellShapedExports | quiz.ts:933-940 | a well-shaped question always has an answer text |
| Anki.ListAnswerJoined | quiz.ts:935 | a list given as the answer to a choice or typed question is written with commas between its items |
| Anki.Front | quiz.ts:941 | the front of a card holds no newline and no tab |
| Anki.Back | quiz.ts:942 | the back of a card holds no newline and no tab |
| Anki.Field | quiz.ts:941-943 | a card field holds no newline and no tab |
| Anki.Cards | quiz.ts:932-944 | there are card lines iff no question makes the export throw; then there is one line per question, `front TAB back` |
| Anki.ExportQuiz | quiz.ts:930-955 | an empty quiz exports nothing; otherwise the export is aborted iff some question makes it throw, and a download is named `FileName(title)` |
| Anki.ExportLines | quiz.ts:944 | the exported text splits into exactly one line per question, and each line into exactly its front and back at its single tab |
| Anki.EmptyQuizExportsNothing | quiz.ts:931 | an empty quiz exports nothing |
| Anki.KeepTitleChars | quiz.ts:950 | only word characters, `-` and white space are left in the title |
| Anki.Underscored | quiz.ts:950 | runs of white space become `_`; no white space is left |
| Anki.KeepTitleCharsAppend | quiz.ts:950 | the character filter distributes over concatenation, so it keeps the order of what it keeps |
| Anki.UnderscoredFromAppend | quiz.ts:950 | the replacement scan distributes over any split of the title, carrying whether the first part ended inside a run of white space |
| Anki.UnderscoredRun | quiz.ts:950 | a whole run of white space up to the next other character becomes one underscore |
| Anki.UnderscoredAppend | quiz.ts:950 | splitting the title anywhere but inside a run of white space splits the result there too |
| Anki.Stem | quiz.ts:950 | the file-name stem is non-empty and made only of word characters and `-`, with `quiz` as the fallback |
| Anki.StemFallback | quiz.ts:950 | `quiz` is used exactly when the kept characters are all white space; otherwise the stem is the trimmed, underscored title |
| Anki.StemKeepsCleanTitle | quiz.ts:950 | a non-empty title made only of word characters and `-` is its own stem |
| Anki.FileName | quiz.ts:950 | the file name is a non-empty stem of word characters and `-`, then `_anki_export.txt` |
| Anki.StemIdempotent | index-1.tsx:1293-1294 | cleaning a stem again leaves it as it is |
| Parts.FileToGenerativePart | utils.ts:36-44 | the part is inline data carrying the file's MIME type |
| Parts.DataUrlPayload | utils.ts:41 | for a data URL (section 3 of RFC 2397) whose header and base64 data hold no comma, the part carries exactly the data |
| Parts.NoCommaNoData | utils.ts:41 | a data URL without a comma gives no data |
| Shuffle.StepsPermute | utils.ts:10-13 | every run of swap steps is a permutation (same multiset) |
| Shuffle.StepsKeepAbove | utils.ts:11-12 | steps at or below `i` never touch a position above `i`, so those positions are final |
| Shuffle.FisherYates | utils.ts:10 | the shuffle is a permutation of its input, and a list of length 0 or 1 is unchanged |
| Shuffle.ShuffleArray | utils.ts:9-15 | the array is shuffled in place, the same array is returned, and its contents are the Fisher–Yates result of the draws |
| Text.TrimBlank | chat.ts:327-328 | `trim()` gives "" exactly when the text is all white space |
| Text.TrimPadding | quiz.ts:653 | trimming ignores white space added on either side |
| Text.TrimKeepsChars | quiz.ts:653 | trimming only drops characters: every character of the result is in the input |
| Text.Trim | quiz.ts:653 | the result is a slice of the input with only white space cut from either end, and it neither starts nor ends with white space |
| Text.ToLower | quiz.ts:673 | the result has the input's length and no capital letter, and exactly the capitals change |
| Text.Split | utils.ts:41 | the fields hold no separator, there is at least one, a string without the separator is one field, and joining the fields with the separator gives back the string |
| Text.FieldAt | utils.ts:41 | field 0 always exists, no field holds the separator, and a string without the separator has only field 0 |
| Text.SplitJoin | utils.ts:41 | splitting at `c` a join of `c`-free fields gives back the fields |
| Text.LexTotal | quiz.ts:668 | the prompt order compares any two strings |
| Text.LexTrans | quiz.ts:668 | the prompt order is transitive |
| Text.LexAntisym | quiz.ts:668 | the prompt order is antisymmetric |
| Text.Decimal | chat.ts:366 | `Date.now()` written in decimal is a non-empty string of digits |
| Text.DecimalInjective | chat.ts:366 | different numbers are written as different numerals |
| QuizSession.FreshAligned | quiz.ts:409 | a fresh answer sheet is aligned with its quiz and scores 0 |
| QuizSession.RecordKeepsAligned | quiz.ts:676 | recording the judged answer at the current index keeps the sheet aligned with the questions |
| QuizSession.Refusal | quiz.ts:258-283 | a request is refused iff the AI client is missing, there is no context, or the context has no prompt, file or image; the modular copy checks the AI client first |
| QuizSession.RefusalOrderDiffers | index-1.tsx:438-462 | the single-file copy checks the AI client last, so the same request can be refused with a different error |
| QuizSession.KeptSummary | quiz.ts:400-406 | an empty summary is dropped; any other is kept |
| QuizSession.QuizEngine.Snapshot | quiz.ts:114-122 | the snapshot holds the quiz data, answers and active page |
| QuizSession.QuizEngine.Verdict | quiz.ts:757-766 | a pass needs a non-empty quiz and a positive score |
| QuizSession.QuizEngine.ResultEntry | quiz.ts:192-210 | the logged entry has a non-empty title, the quiz title when there is one, the quiz's question count as total, its questions, the clock as date, and a score at most the number of answers |
| QuizSession.QuizEngine.Logged | quiz.ts:192-210 | an empty quiz leaves the log as it was; otherwise exactly one entry goes in front of the old log |
| QuizSession.QuizEngine.LoadQuizState | quiz.ts:135-138 | what is loaded is a well-formed snapshot |
| QuizSession.QuizEngine.constructor | quiz.ts:92-107 | page load: nothing in memory, and storage as a previous visit left it |
| QuizSession.QuizEngine.SaveQuizState | quiz.ts:110-133 | a non-empty quiz is saved as its snapshot; an empty one leaves storage as it was |
| QuizSession.QuizEngine.ClearQuizState | quiz.ts:140-146 | the snapshot, start time and summary are cleared |
| QuizSession.QuizEngine.ShowQuizPage | quiz.ts:477-481 | the page becomes active, then the state is saved |
| QuizSession.QuizEngine.SetupQuizUI | quiz.ts:894-903 | the title is set and the landing page shown |
| QuizSession.QuizEngine.SaveQuizResultToHistory | quiz.ts:192-210 | a finished non-empty quiz is prepended to the log (score ≤ total = question count); an empty quiz is not logged |
| QuizSession.QuizEngine.DisplayResults | quiz.ts:753-776 | the verdict is shown, the result logged, and the results page shown |
| QuizSession.QuizEngine.DisplayCurrentQuestion | quiz.ts:494-538 | past the last question, which only an empty quiz reaches, the results are shown instead |
| QuizSession.QuizEngine.Generate | quiz.ts:285-430 | the saved quiz is cleared first; on failure an error is shown and the quiz data, answers, title, index and page stay; after Cancel the error is hidden and nothing is applied; on success a fresh, unstarted quiz is on the landing page and saved |
| QuizSession.QuizEngine.CommitQuiz | quiz.ts:396-417 | the generated quiz is installed with a fresh answer sheet, index 0, its title and its non-empty summary |
| QuizSession.QuizEngine.CheckRequest | quiz.ts:250-283 | the form becomes the context (unless it is a variation request); a refused request leaves its error and yields nothing; an accepted one yields the context and leaves the notice |
| QuizSession.QuizEngine.GenerateQuiz | quiz.ts:250-431 | the form is remembered as the context before the empty-input check; a refused request changes nothing but the error; an accepted one that fails or is cancelled clears the saved quiz, start time and summary and keeps the quiz, title, index and page, with the single-file copy keeping the image of an unparsable reply; a generated one hides the error and installs the fresh, unstarted quiz with its title and kept summary on the landing page, saved |
| QuizSession.QuizEngine.Start | quiz.ts:1062-1069 | index 0, start time now, the quiz page shown, and the answers kept |
| QuizSession.QuizEngine.SubmitAnswer | quiz.ts:640-712 | when the judge gives a verdict, only the current answer is overwritten, with its extracted value and that verdict; the state is then saved unless the feedback throws (a wrong Ordering or Matching answer against a string `correctAnswer`), which leaves the saved state as it was; when judging throws, the answers and saved state stay as they were |
| QuizSession.WellShapedFeedback | quiz.ts:708-712 | the feedback of a well-shaped question never throws |
| QuizSession.StringOrderingFeedbackThrows | quiz.ts:671-712 | any list answer to an Ordering question with a string `correctAnswer` is judged wrong, and its feedback then throws |
| QuizSession.QuizEngine.Next | quiz.ts:733-737 | on the last question the results are shown and logged; otherwise the index moves on by one, so it stays below the question count, and nothing else changes |
| QuizSession.QuizEngine.Retake | quiz.ts:1072-1075 | every answer is reset to null, then Start runs: index 0, the clock restarted, the quiz page shown and saved, and only an empty quiz shows a result |
| QuizSession.QuizEngine.StartQuizFromData | quiz.ts:882-888 | the quiz is loaded with a fresh sheet, its title set, and started at index 0 on the quiz page; it is saved unless empty, and only an empty quiz shows a result |
| QuizSession.QuizEngine.RetakeFromHistory | quiz.ts:1084-1093 | an index inside the log restarts that entry's quiz at index 0, as `StartQuizFromData` does; any other index changes nothing |
| QuizSession.QuizEngine.DisplayReview | quiz.ts:778 | the review page is shown, then the state is saved |
| QuizSession.QuizEngine.DisplayHistory | index-1.tsx:1181-1208 | the history page is shown; the single-file copy stays where it is when the log is empty |
| QuizSession.QuizEngine.Restore | quiz.ts:148-153 | the quiz fields come back from the snapshot |
| QuizSession.QuizEngine.ShowRestored | quiz.ts:171-189 | the saved page is shown again; resuming on results scores again and appends another history entry |
| QuizSession.QuizEngine.Reopen | quiz.ts:160-189 | the image and title come back, and the saved page is shown again, with a resumed results page shown and logged once more; the state is saved from the landing page when the title is set, and saved again only when the page shown saves (every page in the single-file copy, results and review in the modular one) |
| QuizSession.QuizEngine.Resume | quiz.ts:148-190 | with nothing saved nothing changes; otherwise the quiz comes back as saved and is reopened as `Reopen` does; an image that cannot be read back stops the resume after the fields are restored, leaving the title, image, page, result and saved state as they were |
| QuizSession.SaveThenResume | quiz.ts:110-190 | from the landing, quiz, results or review page, saving and resuming give back the data, answers, index, start time, title, summary and page |
| QuizSession.QuizEngine.HandleNewQuiz | quiz.ts:919-928 | the saved quiz, its context and the chosen files are forgotten |
| QuizSession.QuizEngine.AddQuestionToRecall | quiz.ts:980-987 | the deck becomes `Added(deck, question, now)` |
| QuizSession.QuizEngine.UpdateRecallItem | quiz.ts:989-1003 | the deck becomes `Regraded(deck, id, grade, now)`: only the first item with that id changes, and an unknown id changes nothing |
| QuizSession.QuizEngine.StartRecallSession | quiz.ts:1005-1013 | the due items are snapshotted once; with nothing due the page stays |
| QuizSession.QuizEngine.RecallFeedback | quiz.ts:1144-1153 | a grade regrades the item under the cursor and advances the cursor by one; the modular copy ignores a button without a grade |
| Chat.InsertSession | chat.ts:83 | inserting into a sorted list keeps it sorted and adds exactly that session |
| Chat.SortSessions | chat.ts:83 | the list is sorted pinned first, then by `lastUpdated` descending, and is a permutation of its input |
| Chat.SortSortedIdentity | chat.ts:83 | sorting an already-sorted list returns it unchanged |
| Chat.SortIdempotent | chat.ts:83 | sorting twice is sorting once |
| Chat.WithoutSession | chat.ts:525 | exactly the sessions with other ids remain, and a sorted list stays sorted |
| Chat.WithoutSessionAppend | chat.ts:525 | filtering distributes over concatenation, so the survivors keep their order and their number |
| Chat.WithoutAbsentSession | chat.ts:525 | filtering out an id no session has changes nothing |
| Chat.FindSession | chat.ts:377 | the first index with the id, or −1 exactly when no session has it |
| Chat.FindMessage | chat.ts:553 | the first message index with the id, or −1 exactly when none has it |
| Chat.SessionTitle | chat.ts:367 | "New Chat" for empty text; otherwise a non-empty prefix of at most 30 characters, the whole text when it is shorter |
| Chat.RenamedTitle | chat.ts:499 | the trimmed title, or "Untitled Chat" when it is blank; never empty |
| Chat.NewSessionId | chat.ts:366 | a new session id is `chat-` followed by the clock reading |
| Chat.NewSessionIdInjective | chat.ts:366 | sessions created at different moments get different ids |
| Chat.ConcatAppend | chat.ts:428-435 | the accumulated reply extends by each chunk: the text of `a + b` is the text of `a` followed by the text of `b` |
| Chat.ConcatPrefix | chat.ts:428-435 | the text shown while streaming only grows: the first chunks give a prefix of the whole reply |
| Chat.ReplyMessages | chat.ts:406-451 | a finished stream appends one model message with the concatenated text, stamped one after the clock reading at its start; a failure appends the error message stamped one after the clock reading at the failure, after the placeholder when the stream had started |
| Chat.Conversation | chat.ts:361-390 | with no active session a new session goes in front of the unchanged list, with its id, title, clock, instruction and the exchange as history; otherwise only the active session changes, its history extended by the exchange, its clock and instruction updated |
| Chat.Exchange | chat.ts:383-391 | the exchange starts with the user's message, stamped with the clock, whose parts are the PKB parts, then the text when it is not empty, then the attachments; the reply messages follow |
| Chat.DropMessage | chat.ts:561 | only the chosen session changes, and only its history: the messages before and after the dropped one stay, in order |
| Chat.ChatStore.constructor | chat.ts:72-85 | the stored list is loaded, sorted and saved |
| Chat.ChatStore.SortAndSave | chat.ts:82-85 | the list is sorted, saved, and the active session stays findable |
| Chat.ChatStore.StartNewChat | chat.ts:175-186 | no session is active and the attachments are dropped |
| Chat.ChatStore.LoadChat | chat.ts:192-209 | a known session becomes active; an unknown id does nothing |
| Chat.ChatStore.SendMessage | chat.ts:326-457 | blank text with no files does nothing; no AI client shows an error and keeps the sessions, files and token warning; a knowledge-base document or attached file that cannot be read hides the warning and changes nothing else; over 1 000 000 tokens shows a warning and changes no session, file or notice; otherwise the exchange is recorded, then the list is sorted and saved |
| Chat.ChatStore.Settle | chat.ts:375-451 | a new session's id becomes the active one, the attachments are cleared, and a failed reply leaves an error notice |
| Chat.ChatStore.Install | chat.ts:82-85 | the given list, sorted, becomes the list and is saved |
| Chat.ChatStore.SetHistory | chat.ts:567 | only the history of that session changes, and the list stays sorted |
| Chat.ChatStore.Deliver | chat.ts:361-456 | a new session is created and made active, or the active one is updated; the user message carries the PKB parts, text and files; the list is then sorted and saved |
| Chat.ChatStore.TogglePin | chat.ts:483-485 | `isPinned` of that session flips, then the list is sorted and saved |
| Chat.ChatStore.Rename | chat.ts:498-502 | the title becomes `RenamedTitle`, then the list is sorted and saved |
| Chat.ChatStore.DeleteChat | chat.ts:476-532 | an id no session has, or a refused confirmation, changes and saves nothing; once confirmed, every session with the id goes, the rest keep their order and are saved, and the active one and its files are cleared if it was that session, while another active session keeps its files |
| Chat.ChatStore.DeleteMessage | chat.ts:546-564 | exactly the message at its index goes from the active session; id 0 or an unknown id does nothing |
| Chat.ChatStore.Regenerate | chat.ts:565-575 | when the previous message is the user's, the history is cut back to end with it and its text is returned for resending; otherwise nothing changes |
| Pkb.FindBase | pkb.ts:364 | the first index with the id, or −1 exactly when no base has it |
| Pkb.ActiveBases | pkb.ts:147-149 | exactly the bases whose id is active; all active means all bases |
| Pkb.ActiveBasesAppend | pkb.ts:147-149 | selection distributes over concatenation, so the active bases keep their stored order |
| Pkb.CheckedIds | pkb.ts:433-435 | at most one id per base, and no ticked box gives no id |
| Pkb.NoneActive | pkb.ts:152-153 | with no active id there are no active bases |
| Pkb.CheckedIdsMembers | pkb.ts:433-435 | an id is collected iff its base's checkbox is ticked |
| Pkb.ActivatedAreChecked | pkb.ts:428-436 | with distinct ids, after activation a base is active iff its checkbox is ticked |
| Pkb.WithoutBase | pkb.ts:353 | exactly the bases with other ids remain |
| Pkb.WithoutId | pkb.ts:354 | exactly the other active ids remain |
| Pkb.WithoutItem | pkb.ts:405 | exactly the items with other ids remain |
| Pkb.WithoutBaseAppend | pkb.ts:353 | filtering bases distributes over concatenation, keeping order and number |
| Pkb.WithoutIdAppend | pkb.ts:354 | filtering active ids distributes over concatenation, keeping order and repetitions |
| Pkb.WithoutItemAppend | pkb.ts:405 | filtering items distributes over concatenation, keeping order and number |
| Pkb.KindOf | pkb.ts:379 | an item is an image iff its MIME type starts with `image/` |
| Pkb.ItemImages | pkb.ts:175-181 | an image item whose content was found gives one inline part, built as `fileToGenerativePart` builds it; any other item gives none |
| Pkb.ContextShape | pkb.ts:153-186 | no parts when no base is active; otherwise a text part first, then one inline part per image item with content |
| Pkb.Context | pkb.ts:153-186 | no parts exactly when no base is active; otherwise a text part first and only inline parts after it |
| Pkb.BasesImagesCount | pkb.ts:160-184 | the inline parts number exactly the image items with content, counted base by base |
| Pkb.ItemsSkipped | pkb.ts:164-168 | items whose content is missing add no text and no part |
| Pkb.EmptyBaseText | pkb.ts:161-183 | a base without usable items contributes only its header and footer |
| Pkb.PkbRegistry.constructor | pkb.ts:132-137 | the bases and active ids are loaded from storage |
| Pkb.PkbRegistry.SavePKBs | pkb.ts:139-145 | both lists are written to storage |
| Pkb.PkbRegistry.GetActivePKBContent | pkb.ts:151-188 | the loop over bases and items returns exactly `Context` of the active bases |
| Pkb.PkbRegistry.AssembleItems | pkb.ts:163-182 | the inner loop gives exactly the items' text and image parts |
| Pkb.PkbRegistry.BeginEdit | pkb.ts:298-311 | the dialog edits a known base, or creates a new one |
| Pkb.PkbRegistry.SavePKB | pkb.ts:313-339 | a blank name is refused with no change; editing changes only name and description; creating prepends a base with no items; then both lists are saved |
| Pkb.PkbRegistry.DeleteContents | pkb.ts:345-349 | the stored content of every item of the base is deleted, and nothing else |
| Pkb.PkbRegistry.DeletePKB | pkb.ts:342-358 | a refused deletion changes nothing; once confirmed, the base and its id go from both lists, which are saved, the content of exactly that base's items goes and all other content stays, and the detail view closes if it showed that base |
| Pkb.PkbRegistry.AddPKBItem | pkb.ts:360-397 | without a selected base nothing happens; a missing base or file, or a read failure, is an error that leaves the bases, content, chosen file and storage as they were; otherwise the content is stored, the item appended, both lists saved and the form cleared, with no notice shown |
| Pkb.PkbRegistry.DeletePKBItem | pkb.ts:399-407 | an unknown base changes and saves nothing; otherwise the item's content is deleted, items with the id leave that base only, and both lists are saved |
| Pkb.PkbRegistry.ActivatePKBs | pkb.ts:428-436 | the active ids become exactly the ticked ones, in list order, and are saved |
| Pkb.PkbRegistry.SelectPKB | pkb.ts:228-278 | a known base's detail view opens, or the view closes |
| Pkb.PkbRegistry.ChooseItemFile | pkb.ts:508-520 | the add-item form holds the chosen file, or none |

## Left out

- The DOM, rendering and event wiring. Pages are the `Page` values; read-only displays such as the recall card itself, the review page's HTML and the progress bar's width are not modelled.
- The generation service and every Gemini call, with their prompt and schema templates. A request ends in an abstract `Reply` or `StreamReply`.
- Settings, i18n, voice recording, the "learn more" resources and font size: they are configuration or view.
- Document text extraction, `estimateTokens` and PDF/DOCX reading. These are parameters (`extract`, `tokens`); `FileReader` success is a flag or an `Option`.
- `Pkb.PkbRegistry.GetActivePKBContent`: `extract` is total, so the rejection of a corrupt PDF or DOCX (and of rebuilding its file from the data URL) is not modelled; when sending, that rejection is `Chat.ChatStore.SendMessage` with `partsRead` false.
- `Chat.ChatStore.SendMessage`: a failed read is one flag, `partsRead`, for the knowledge-base documents and every attachment together; which read failed is not distinguished, since each rejects the send in the same way.
- The `Variant` split. The single-file copy's differences are modelled only where they show in state: the order of the generation checks, an empty history page, an unknown resumed page, recall button parsing, and the Anki arrow.
- Timers and the clock. `now` is a parameter read once per step; a streamed reply carries its own readings, at its start and at its failure. The elapsed time is whole seconds, not the `mm:ss` text; the history date is the clock reading, not `toLocaleString`.
- Floating point. The percentage and `toFixed(1)` are not modelled, and pass is `100·score ≥ 60·total`. Ease is exact in hundredths, whereas JavaScript doubles may round differently at a ceiling boundary.
- Every `await` is treated as an atomic step. That covers the delayed write of `saveQuizState` when an image is attached, the streaming loop, and the cancel flag.
- `JSON.stringify` equality is structural equality, except that an empty list of strings and an empty list of pairs are equal (`SameJson`). Key-order artefacts are not modelled.
- `toLowerCase` is ASCII-only, `localeCompare` is modelled as code-point order (`LexLe`), not the locale's collation, and white space is the JavaScript set the source's text uses.
- Clipboard copy, the rename's Escape revert, and file metadata and timestamps on chat messages.
- In `Regenerate`, the follow-up send is not modelled. It is a new `SendMessage` with the returned text, which appends the user message a second time.
- `Chat.Conversation`: does not model the chunk text being `undefined`, nor a throwing title generator.
- `QuizSession.QuizEngine.Resume`: does not model the file object rebuilt from the image. The image is kept as its data URL string.
- `Pkb.PkbRegistry.SavePKB`: editing goes through the dialog's id, not the object reference the source keeps. A base deleted while its dialog is open is therefore not changed.
- The PKB record types are not declared in the state module. Their fields are taken from their use in `pkb.ts`.
- `Chat.SessionTitle`: counts characters, whereas `substring(0, 30)` counts UTF-16 code units. A text with characters outside the Basic Multilingual Plane gets a longer title here.
- `Evaluator.Judge`: the length test of Matching counts the characters of a string `correctAnswer` (`JsLength`), whereas JavaScript counts UTF-16 code units. The two differ only for strings with characters outside the Basic Multilingual Plane.
