/**
 * How a submitted answer is read from the question's controls, judged
 * against `correctAnswer`, and counted into a score.
 */
module Evaluator {
  import opened Common
  import opened Text
  import opened QuizTypes

  /** What the question's controls hold when Submit is pressed. */
  datatype Response = Response(
    checked: Option<string>,     // value of the checked radio button, if any
    typed: string,               // the short-answer text box
    ordered: seq<string>,        // the ordering list, top to bottom
    matched: seq<MatchPair>)     // the pairs the user has connected

  /** The `userAnswer` that Submit records for a question of type `t`. */
  function Extract(t: QuestionType, r: Response): (a: Option<AnswerValue>)
    ensures t == ShortAnswer ==> (a == None <==> AllSpace(r.typed))
    ensures t == ShortAnswer && a.Some? ==> a.value.Text? && a.value.text == Trim(r.typed)
    ensures (t == MCQ || t == TrueFalse) ==> (a == None <==> r.checked == None)
    ensures t == Ordering ==> a == Some(Items(r.ordered))
    ensures t == Matching ==> a == Some(Pairs(r.matched))
  {
    match t
    case MCQ | TrueFalse => if r.checked.Some? then Some(Text(r.checked.value)) else None
    case ShortAnswer =>
      TrimBlank(r.typed);
      var s := Trim(r.typed);
      if s == "" then None else Some(Text(s))
    case Ordering => Some(Items(r.ordered))
    case Matching => Some(Pairs(r.matched))
  }

  /** JavaScript truthiness of a recorded answer: `null` and `""` are falsy, every list is truthy. */
  predicate Truthy(a: Option<AnswerValue>) {
    a.Some? && (a.value.Text? ==> a.value.text != "")
  }

  predicate SortedByPrompt(ps: seq<MatchPair>) {
    forall i, j :: 0 <= i < j < |ps| ==> LexLe(ps[i].prompt, ps[j].prompt)
  }

  /** No two different pairs share a prompt. */
  predicate UniquePrompts(ps: seq<MatchPair>) {
    forall x, y :: x in ps && y in ps && x.prompt == y.prompt ==> x == y
  }

  /** Every pair of `ps` has a prompt at or after `k`. */
  predicate PromptsFrom(k: string, ps: seq<MatchPair>) {
    forall y :: y in ps ==> LexLe(k, y.prompt)
  }

  lemma SortedCons(x: MatchPair, ps: seq<MatchPair>)
    requires SortedByPrompt(ps) && PromptsFrom(x.prompt, ps)
    ensures SortedByPrompt([x] + ps)
  {
    var r := [x] + ps;
    forall i, j | 0 <= i < j < |r| ensures LexLe(r[i].prompt, r[j].prompt) {
      if i > 0 {
        assert r[i] == ps[i - 1] && r[j] == ps[j - 1];
      } else {
        assert r[j] in ps;
      }
    }
  }

  /** In a sorted list every pair's prompt is at or after the first one's, and the tail is sorted. */
  lemma SortedSplit(ps: seq<MatchPair>)
    requires SortedByPrompt(ps) && ps != []
    ensures PromptsFrom(ps[0].prompt, ps[1..]) && SortedByPrompt(ps[1..])
  {
    forall y | y in ps[1..] ensures LexLe(ps[0].prompt, y.prompt) {
      var j :| 0 <= j < |ps[1..]| && ps[1..][j] == y;
      assert ps[j + 1] == y;
    }
    forall i, j | 0 <= i < j < |ps[1..]| ensures LexLe(ps[1..][i].prompt, ps[1..][j].prompt) {
      assert ps[1..][i] == ps[i + 1] && ps[1..][j] == ps[j + 1];
    }
  }

  /** A bound below the first prompt of a sorted list bounds all of it. */
  lemma BelowHead(k: string, ps: seq<MatchPair>)
    requires SortedByPrompt(ps) && (ps != [] ==> LexLe(k, ps[0].prompt))
    ensures PromptsFrom(k, ps)
  {
    forall y | y in ps ensures LexLe(k, y.prompt) {
      var j :| 0 <= j < |ps| && ps[j] == y;
      if j > 0 { LexTrans(k, ps[0].prompt, y.prompt); }
    }
  }

  /** A bound on the pairs of `ps` and on `p` bounds any list holding exactly those pairs. */
  lemma BoundKept(k: string, ps: seq<MatchPair>, p: MatchPair, r: seq<MatchPair>)
    requires PromptsFrom(k, ps) && LexLe(k, p.prompt)
    requires multiset(r) == multiset(ps) + multiset{p}
    ensures PromptsFrom(k, r)
  {
    forall y | y in r ensures LexLe(k, y.prompt) {
      assert y in multiset(r);
      if y != p {
        assert y in multiset(ps);
      }
    }
  }

  /** One step of the stable sort by prompt: `p` goes before the first pair it does not follow. */
  function InsertByPrompt(p: MatchPair, ps: seq<MatchPair>): (r: seq<MatchPair>)
    requires SortedByPrompt(ps)
    ensures SortedByPrompt(r)
    ensures multiset(r) == multiset(ps) + multiset{p}
  {
    if ps == [] || LexLe(p.prompt, ps[0].prompt) then
      BelowHead(p.prompt, ps);
      SortedCons(p, ps);
      [p] + ps
    else
      LexTotal(p.prompt, ps[0].prompt);
      SortedSplit(ps);
      var rest := InsertByPrompt(p, ps[1..]);
      BoundKept(ps[0].prompt, ps[1..], p, rest);
      SortedCons(ps[0], rest);
      assert multiset(ps) == multiset([ps[0]] + ps[1..]) by { assert ps == [ps[0]] + ps[1..]; }
      [ps[0]] + rest
  }

  /**
   * `[...pairs].sort((a, b) => a.prompt.localeCompare(b.prompt))`: a stable
   * sort by prompt.
   */
  function SortByPrompt(ps: seq<MatchPair>): (r: seq<MatchPair>)
    ensures SortedByPrompt(r)
    ensures multiset(r) == multiset(ps)
  {
    if ps == [] then []
    else
      assert ps == [ps[0]] + ps[1..];
      InsertByPrompt(ps[0], SortByPrompt(ps[1..]))
  }

  /**
   * Two lists sorted by prompt that hold the same pairs are equal, when no
   * prompt is shared by two different pairs.
   */
  lemma SortedHeadsEqual(s: seq<MatchPair>, t: seq<MatchPair>)
    requires SortedByPrompt(s) && SortedByPrompt(t)
    requires multiset(s) == multiset(t) && s != []
    requires UniquePrompts(t)
    ensures t != [] && s[0] == t[0]
  {
    assert |t| == |multiset(t)| == |multiset(s)| > 0;
    assert s[0] in multiset(t);
    var j :| 0 <= j < |t| && t[j] == s[0];
    assert t[0] in multiset(s);
    var k :| 0 <= k < |s| && s[k] == t[0];
    if j > 0 && k > 0 {
      assert LexLe(t[0].prompt, s[0].prompt);
      assert LexLe(s[0].prompt, t[0].prompt);
      LexAntisym(s[0].prompt, t[0].prompt);
      assert s[0] in t && t[0] in t;
    }
  }

  lemma {:induction false} SortedUnique(s: seq<MatchPair>, t: seq<MatchPair>)
    requires SortedByPrompt(s) && SortedByPrompt(t)
    requires multiset(s) == multiset(t)
    requires UniquePrompts(t)
    ensures s == t
    decreases |s|
  {
    if s == [] {
      assert |multiset(t)| == 0;
    } else {
      SortedHeadsEqual(s, t);
      SameTails(s, t);
      SortedSplit(s);
      SortedSplit(t);
      UniqueOfSame(t[1..], t);
      SortedUnique(s[1..], t[1..]);
      assert s == [s[0]] + s[1..] && t == [t[0]] + t[1..];
    }
  }

  /** Two lists with the same pairs and the same first pair have the same pairs after it. */
  lemma SameTails(s: seq<MatchPair>, t: seq<MatchPair>)
    requires s != [] && t != [] && s[0] == t[0] && multiset(s) == multiset(t)
    ensures multiset(s[1..]) == multiset(t[1..]) && multiset(t[1..]) <= multiset(t)
  {
    assert s == [s[0]] + s[1..] && t == [t[0]] + t[1..];
    assert multiset(s) == multiset{s[0]} + multiset(s[1..]);
    assert multiset(t) == multiset{t[0]} + multiset(t[1..]);
    assert multiset(s[1..]) == multiset(s) - multiset{s[0]};
    assert multiset(t[1..]) == multiset(t) - multiset{t[0]};
  }

  /** Distinct prompts hold in any list whose pairs all come from a list where they hold. */
  lemma UniqueOfSame(u: seq<MatchPair>, t: seq<MatchPair>)
    requires UniquePrompts(t) && multiset(u) <= multiset(t)
    ensures UniquePrompts(u)
  {
    forall x, y | x in u && y in u && x.prompt == y.prompt ensures x == y {
      assert x in multiset(u) && y in multiset(u);
      assert x in t && y in t;
    }
  }

  /** `length` of a value: the characters of a string, the elements of a list. */
  function JsLength(v: AnswerValue): nat {
    match v
    case Text(s) => |s|
    case Items(xs) => |xs|
    case Pairs(ps) => |ps|
  }

  /** The empty list, whichever element type it was meant to have: it is written `[]` either way. */
  predicate EmptyList(v: AnswerValue) {
    v == Items([]) || v == Pairs([])
  }

  /** `JSON.stringify(x) === JSON.stringify(y)`. */
  predicate SameJson(x: AnswerValue, y: AnswerValue) {
    x == y || (EmptyList(x) && EmptyList(y))
  }

  /** The characters of a string as a list of one-character strings, as `[...s]` gives them. */
  function Spread(s: string): (r: seq<string>)
    ensures |r| == |s| && forall i :: 0 <= i < |s| ==> r[i] == [s[i]]
  {
    seq(|s|, i requires 0 <= i < |s| => [s[i]])
  }

  /**
   * `[...v].sort((x, y) => x.prompt.localeCompare(y.prompt))`, or `None` when
   * the comparator meets an element without a prompt and throws. A list of
   * fewer than two elements is returned without calling the comparator.
   */
  function SortedCopy(v: AnswerValue): (r: Option<AnswerValue>)
    ensures r.None? <==> !v.Pairs? && JsLength(v) >= 2
  {
    match v
    case Pairs(ps) => Some(Pairs(SortByPrompt(ps)))
    case Items(xs) => if |xs| >= 2 then None else Some(Items(xs))
    case Text(s) => if |s| >= 2 then None else Some(Items(Spread(s)))
  }

  /** The outcome of judging: a verdict, or the `TypeError` that stops `submitAnswer`. */
  datatype Outcome = Judged(correct: bool) | Throws

  /**
   * Whether a recorded answer is correct. Only a truthy answer is compared:
   * Ordering compares the JSON of both lists, Matching compares the lengths
   * and then the JSON of both lists sorted by prompt, and the other three
   * types compare the lower-cased strings, which throws when either side is
   * not a string.
   */
  function Judge(q: Question, a: Option<AnswerValue>): (o: Outcome)
    ensures !Truthy(a) ==> o == Judged(false)
    ensures o == Judged(true) && q.questionType == Matching && a.value.Pairs? && q.correctAnswer.Pairs? ==>
      multiset(a.value.pairs) == multiset(q.correctAnswer.pairs)
    ensures o == Throws ==>
      Truthy(a) && (q.questionType == Matching || (q.questionType != Ordering && !(a.value.Text? && q.correctAnswer.Text?)))
  {
    if !Truthy(a) then Judged(false)
    else match q.questionType
      case Ordering => Judged(SameJson(a.value, q.correctAnswer))
      case Matching =>
        if JsLength(a.value) != JsLength(q.correctAnswer) then Judged(false)
        else
          var x, y := SortedCopy(a.value), SortedCopy(q.correctAnswer);
          if x.None? || y.None? then Throws else Judged(SameJson(x.value, y.value))
      case _ =>
        if a.value.Text? && q.correctAnswer.Text? then Judged(ToLower(a.value.text) == ToLower(q.correctAnswer.text))
        else Throws
  }

  /** The shape `Extract` gives the answer to a question of type `t`. */
  predicate Recorded(t: QuestionType, v: AnswerValue) {
    match t
    case Ordering => v.Items?
    case Matching => v.Pairs?
    case _ => v.Text?
  }

  /** A well-shaped question never makes the judge throw on an answer read from its controls. */
  lemma WellShapedJudged(q: Question, a: Option<AnswerValue>)
    requires WellShaped(q) && (a.Some? ==> Recorded(q.questionType, a.value))
    ensures Judge(q, a).Judged?
  {
  }

  /** A string question whose `correctAnswer` is a list throws on any non-empty answer. */
  lemma ListAnswerThrows(q: Question, s: string)
    requires q.questionType in {MCQ, TrueFalse, ShortAnswer} && !q.correctAnswer.Text?
    requires s != ""
    ensures Judge(q, Some(Text(s))) == Throws
  {
  }

  /**
   * A Matching question whose `correctAnswer` is a list of two or more
   * strings throws once the answer has as many pairs: the comparator reads
   * `prompt` of a string.
   */
  lemma StringPairsThrow(q: Question, u: seq<MatchPair>)
    requires q.questionType == Matching && q.correctAnswer.Items? && |q.correctAnswer.items| >= 2
    requires |u| == |q.correctAnswer.items|
    ensures Judge(q, Some(Pairs(u))) == Throws
  {
  }

  /** An empty Matching answer is correct against any empty `correctAnswer`: both write `[]`. */
  lemma EmptyMatchingCorrect(q: Question)
    requires q.questionType == Matching && q.correctAnswer in {Items([]), Pairs([]), Text("")}
    ensures Judge(q, Some(Pairs([]))) == Judged(true)
  {
  }

  /** An Ordering answer is correct exactly when it is the correct list, element by element. */
  lemma OrderingExact(q: Question, xs: seq<string>)
    requires q.questionType == Ordering
    ensures Judge(q, Some(Items(xs))) == Judged(q.correctAnswer == Items(xs) || (xs == [] && q.correctAnswer == Pairs([])))
  {
  }

  /**
   * A Matching answer is correct exactly when it holds the same pairs as the
   * correct answer, in any order, provided the correct answer uses each
   * prompt for one pair only.
   */
  lemma MatchingIffSamePairs(q: Question, u: seq<MatchPair>)
    requires q.questionType == Matching && q.correctAnswer.Pairs?
    requires UniquePrompts(q.correctAnswer.pairs)
    ensures Judge(q, Some(Pairs(u))) == Judged(multiset(u) == multiset(q.correctAnswer.pairs))
  {
    var c := q.correctAnswer.pairs;
    if multiset(u) == multiset(c) {
      assert |u| == |multiset(u)| == |multiset(c)| == |c|;
      var sc := SortByPrompt(c);
      UniqueOfSame(sc, c);
      SortedUnique(SortByPrompt(u), sc);
    }
  }

  /** Leaving out a pair, or adding one, makes a Matching answer incorrect. */
  lemma MatchingLengthMismatch(q: Question, u: seq<MatchPair>)
    requires q.questionType == Matching
    requires |u| != JsLength(q.correctAnswer)
    ensures Judge(q, Some(Pairs(u))) == Judged(false)
  {
  }

  /**
   * Without distinct prompts the sort keeps the submitted order of pairs that
   * share a prompt, so the same pairs given in another order are incorrect.
   */
  lemma MatchingSharedPromptOrderMatters(q: Question, x: MatchPair, y: MatchPair)
    requires q.questionType == Matching
    requires x.prompt == y.prompt && x != y
    requires q.correctAnswer == Pairs([x, y])
    ensures
      var u := [y, x];
      multiset(u) == multiset(q.correctAnswer.pairs) && Judge(q, Some(Pairs(u))) == Judged(false)
  {
    SortKeepsSharedPrompt(x, y);
    SortKeepsSharedPrompt(y, x);
    var u, c: seq<MatchPair> := [y, x], [x, y];
    assert multiset(u) == multiset(c);
    assert u[0] != c[0];
  }

  /** Two pairs with the same prompt stay in the order given. */
  lemma SortKeepsSharedPrompt(x: MatchPair, y: MatchPair)
    requires x.prompt == y.prompt
    ensures SortByPrompt([x, y]) == [x, y]
  {
    LexTotal(x.prompt, x.prompt);
    assert [x, y][1..] == [y];
    assert SortByPrompt([y]) == [y];
  }

  /** The string types ignore the case of the submitted answer. */
  lemma JudgeIgnoresCase(q: Question, s: string)
    requires q.questionType == MCQ || q.questionType == TrueFalse || q.questionType == ShortAnswer
    ensures Judge(q, Some(Text(s))) == Judge(q, Some(Text(ToLower(s))))
  {
    ToLowerIdempotent(s);
  }

  /** Two characters are the same letter when equal or when one is the capital of the other. */
  predicate SameLetter(x: char, y: char) {
    x == y || ('A' <= x <= 'Z' && y as int == x as int + 32) || ('A' <= y <= 'Z' && x as int == y as int + 32)
  }

  /** Two strings spell the same text up to the case of ASCII letters. */
  predicate SameLetters(s: string, c: string) {
    |s| == |c| && forall i :: 0 <= i < |s| ==> SameLetter(s[i], c[i])
  }

  lemma LowerCharSame(x: char, y: char)
    ensures LowerChar(x) == LowerChar(y) <==> SameLetter(x, y)
  {
  }

  lemma {:induction false} ToLowerSame(s: string, c: string)
    ensures ToLower(s) == ToLower(c) <==> SameLetters(s, c)
  {
    if ToLower(s) == ToLower(c) {
      forall i | 0 <= i < |s|
        ensures SameLetter(s[i], c[i])
      {
        assert ToLower(s)[i] == ToLower(c)[i];
        LowerCharSame(s[i], c[i]);
      }
    }
    if SameLetters(s, c) {
      forall i | 0 <= i < |s|
        ensures ToLower(s)[i] == ToLower(c)[i]
      {
        LowerCharSame(s[i], c[i]);
      }
    }
  }

  /**
   * A non-empty typed or chosen answer to a string question is correct
   * exactly when it spells the `correctAnswer` up to letter case.
   */
  lemma TextVerdict(q: Question, s: string)
    requires q.questionType in {MCQ, TrueFalse, ShortAnswer} && q.correctAnswer.Text? && s != ""
    ensures Judge(q, Some(Text(s))) == Judged(SameLetters(s, q.correctAnswer.text))
  {
    ToLowerSame(s, q.correctAnswer.text);
  }

  /** White space around a short answer does not change what is recorded. */
  lemma ShortAnswerPadding(r: Response, pre: string, post: string)
    requires AllSpace(pre) && AllSpace(post)
    ensures Extract(ShortAnswer, r.(typed := pre + r.typed + post)) == Extract(ShortAnswer, r)
  {
    TrimPadding(pre, r.typed, post);
  }

  /**
   * Only the typed answer is trimmed: a `correctAnswer` that carries white
   * space can never be matched, because a short answer never does.
   */
  lemma CorrectAnswerNotTrimmed(q: Question, r: Response)
    requires q.questionType == ShortAnswer && q.correctAnswer.Text?
    requires q.correctAnswer.text != "" && IsSpace(q.correctAnswer.text[0])
    ensures Judge(q, Extract(ShortAnswer, r)) == Judged(false)
  {
    var a := Extract(ShortAnswer, r);
    if a.Some? {
      LowerHeadsDiffer(a.value.text, q.correctAnswer.text);
    }
  }

  /** Lower-casing keeps white space and keeps other characters out of it. */
  lemma LowerHeadsDiffer(t: string, c: string)
    requires t != "" && !IsSpace(t[0]) && c != "" && IsSpace(c[0])
    ensures ToLower(t) != ToLower(c)
  {
    assert ToLower(t)[0] == LowerChar(t[0]) && ToLower(c)[0] == LowerChar(c[0]);
  }

  /** `userAnswers.filter(a => a.isCorrect).length`. */
  function Score(answers: seq<UserAnswer>): (r: nat)
    ensures r <= |answers|
    ensures r == |answers| <==> forall i :: 0 <= i < |answers| ==> answers[i].isCorrect
    ensures r == 0 <==> forall i :: 0 <= i < |answers| ==> !answers[i].isCorrect
  {
    if answers == [] then 0
    else
      var rest := Score(answers[1..]);
      assert forall i :: 1 <= i < |answers| ==> answers[i] == answers[1..][i - 1];
      (if answers[0].isCorrect then 1 else 0) + rest
  }

  /** The progress bar's count: answers whose `userAnswer` is not `null`. */
  function Answered(answers: seq<UserAnswer>): (r: nat)
    ensures r <= |answers|
    ensures r == 0 <==> forall i :: 0 <= i < |answers| ==> answers[i].userAnswer == None
  {
    if answers == [] then 0
    else
      var rest := Answered(answers[1..]);
      assert forall i :: 1 <= i < |answers| ==> answers[i] == answers[1..][i - 1];
      (if answers[0].userAnswer.Some? then 1 else 0) + rest
  }

  /** `Array(n).fill(null).map((_, i) => ({questionIndex: i, userAnswer: null, isCorrect: false}))`. */
  function FreshAnswers(n: nat): (r: seq<UserAnswer>)
    ensures |r| == n
    ensures forall i :: 0 <= i < n ==> r[i].questionIndex == i && r[i].userAnswer == None
    ensures Score(r) == 0 && Answered(r) == 0
  {
    seq(n, i requires 0 <= i => UserAnswer(i, None, false))
  }

  const PassPercentage := 60

  /** `percentage >= 60` with `percentage = score / total * 100`, and 0 for an empty quiz. */
  predicate Passed(score: nat, total: nat)
    ensures Passed(score, total) ==> total > 0 && score > 0
    ensures score >= total > 0 ==> Passed(score, total)
  {
    total > 0 && 100 * score >= PassPercentage * total
  }

  /** A quiz answered entirely correctly passes; one with no correct answer fails. */
  lemma PassExtremes(answers: seq<UserAnswer>)
    requires |answers| > 0
    ensures (forall i :: 0 <= i < |answers| ==> answers[i].isCorrect) ==> Passed(Score(answers), |answers|)
    ensures (forall i :: 0 <= i < |answers| ==> !answers[i].isCorrect) ==> !Passed(Score(answers), |answers|)
  {
  }
}
