/**
 * The Anki export: one line per question, holding the card's front, a tab,
 * and its back, and the name of the downloaded file.
 */
module Anki {
  import opened Common
  import opened Text
  import opened QuizTypes

  /**
   * The arrow written between the items of an answer. The single-file copy
   * holds the UTF-8 bytes of "→" decoded as Mac Roman, so its cards show
   * "‚Üí" instead.
   */
  function Arrow(v: Variant): (r: string)
    ensures |r| >= 3 && r[0] == ' ' && r[|r| - 1] == ' ' && '\n' !in r && '\t' !in r
  {
    match v
    case Modular => " \U{2192} "
    case SingleFile => " \U{201A}\U{00DC}\U{00ED} "
  }

  /** `<li>prompt → answer</li>` for every pair, joined with nothing between them. */
  function MatchList(ps: seq<MatchPair>, arrow: string): (r: string)
    ensures r == "" <==> ps == []
  {
    if ps == [] then "" else "<li>" + ps[0].prompt + arrow + ps[0].answer + "</li>" + MatchList(ps[1..], arrow)
  }

  /** The list items of two lists of pairs are the items of the first followed by those of the second. */
  lemma {:induction false} MatchListAppend(a: seq<MatchPair>, b: seq<MatchPair>, arrow: string)
    ensures MatchList(a + b, arrow) == MatchList(a, arrow) + MatchList(b, arrow)
  {
    if a == [] {
      assert a + b == b;
    } else {
      assert (a + b)[0] == a[0] && (a + b)[1..] == a[1..] + b;
      MatchListAppend(a[1..], b, arrow);
      var head := "<li>" + a[0].prompt + arrow + a[0].answer + "</li>";
      assert MatchList(a + b, arrow) == head + MatchList(a[1..] + b, arrow);
      assert MatchList(a, arrow) == head + MatchList(a[1..], arrow);
    }
  }

  /** `n` copies of `x`. */
  function Repeat<T>(x: T, n: nat): (r: seq<T>)
    ensures |r| == n && forall i :: 0 <= i < n ==> r[i] == x
  {
    seq(n, i => x)
  }

  /** What a template writes for a value: a list is its elements joined by commas, and a pair object is `[object Object]`. */
  function Interpolated(v: AnswerValue): string {
    match v
    case Text(s) => s
    case Items(xs) => Join(xs, ",")
    case Pairs(ps) => Join(Repeat("[object Object]", |ps|), ",")
  }

  /**
   * The export throws on a question of this shape: a string has neither the
   * `join` the Ordering branch calls nor the `map` the Matching branch calls.
   */
  predicate ExportThrows(q: Question) {
    (q.questionType == Ordering || q.questionType == Matching) && q.correctAnswer.Text?
  }

  /**
   * The answer shown on the back of a card, or `None` when building it
   * throws. A `correctAnswer` of another shape than its type asks for is
   * written as JavaScript coerces it: a list of pairs joined as
   * `[object Object]` entries, and a string in the place of a pair giving
   * `undefined` for its prompt and answer.
   */
  function AnswerText(q: Question, v: Variant): (a: Option<string>)
    ensures a.None? <==> ExportThrows(q)
  {
    match q.questionType
    case Ordering =>
      (match q.correctAnswer
       case Text(_) => None
       case Items(xs) => Some("<strong>Correct Order:</strong> " + Join(xs, Arrow(v)))
       case Pairs(ps) => Some("<strong>Correct Order:</strong> " + Join(Repeat("[object Object]", |ps|), Arrow(v))))
    case Matching =>
      (match q.correctAnswer
       case Text(_) => None
       case Items(xs) =>
         Some("<strong>Correct Matches:</strong><ul>" + MatchList(Repeat(MatchPair("undefined", "undefined"), |xs|), Arrow(v)) + "</ul>")
       case Pairs(ps) => Some("<strong>Correct Matches:</strong><ul>" + MatchList(ps, Arrow(v)) + "</ul>"))
    case _ => Some("<strong>Correct Answer:</strong> " + Interpolated(q.correctAnswer))
  }

  /** A well-shaped question always has an answer text. */
  lemma WellShapedExports(q: Question, v: Variant)
    requires WellShaped(q)
    ensures AnswerText(q, v).Some?
  {
  }

  /** A list given as the answer to a string question is written with commas between its items. */
  lemma ListAnswerJoined(q: Question, xs: seq<string>, v: Variant)
    requires q.questionType in {MCQ, TrueFalse, ShortAnswer} && q.correctAnswer == Items(xs)
    ensures AnswerText(q, v) == Some("<strong>Correct Answer:</strong> " + Join(xs, ","))
  {
  }

  /** One side of a card: newlines become `<br>`, then tabs become spaces. */
  function Field(s: string): (r: string)
    ensures '\n' !in r && '\t' !in r
  {
    var t := ReplaceChar(s, '\n', "<br>");
    ReplaceCharRemoves(s, '\n', "<br>", '\n');
    ReplaceCharRemoves(t, '\t', " ", '\t');
    ReplaceCharRemoves(t, '\t', " ", '\n');
    ReplaceChar(t, '\t', " ")
  }

  /** The front of a card: the question text on one line. */
  function Front(q: Question): (r: string)
    ensures '\n' !in r && '\t' !in r
  {
    Field(q.question)
  }

  /** The back of a card: the answer, a rule and the explanation, on one line. */
  function Back(answer: string, q: Question): (r: string)
    ensures '\n' !in r && '\t' !in r
  {
    Field(answer + "<hr>" + q.explanation)
  }

  /** The card lines of a quiz, or `None` when building one of them throws. */
  function Cards(qs: seq<Question>, v: Variant): (r: Option<seq<string>>)
    ensures r.Some? <==> forall k :: 0 <= k < |qs| ==> !ExportThrows(qs[k])
    ensures r.Some? ==> |r.value| == |qs|
    ensures r.Some? ==> forall k :: 0 <= k < |qs| ==>
      r.value[k] == Front(qs[k]) + "\t" + Back(AnswerText(qs[k], v).value, qs[k])
  {
    if qs == [] then Some([])
    else
      var rest := Cards(qs[1..], v);
      assert forall k :: 1 <= k < |qs| ==> qs[k] == qs[1..][k - 1];
      match AnswerText(qs[0], v)
      case None => None
      case Some(a) =>
        if rest.None? then None else Some([Front(qs[0]) + "\t" + Back(a, qs[0])] + rest.value)
  }

  /** What the export button does. */
  datatype Export =
    | NothingToExport                          // the quiz is empty
    | Aborted                                  // building a card threw
    | Download(fileName: string, content: string)

  function ExportQuiz(qs: seq<Question>, title: string, v: Variant): (r: Export)
    ensures r == NothingToExport <==> qs == []
    ensures r.Aborted? <==> qs != [] && exists k :: 0 <= k < |qs| && ExportThrows(qs[k])
    ensures r.Download? ==> r.fileName == FileName(title)
  {
    if |qs| == 0 then NothingToExport
    else match Cards(qs, v)
      case None => Aborted
      case Some(lines) => Download(FileName(title), Join(lines, "\n"))
  }

  /**
   * The exported text has exactly one line per question, and every line has
   * exactly one tab, between the card's front and its back.
   */
  lemma ExportLines(qs: seq<Question>, title: string, v: Variant)
    requires ExportQuiz(qs, title, v).Download?
    ensures
      var lines := Split(ExportQuiz(qs, title, v).content, '\n');
      |lines| == |qs|
      && forall k :: 0 <= k < |qs| ==>
        Split(lines[k], '\t') == [Front(qs[k]), Back(AnswerText(qs[k], v).value, qs[k])]
  {
    var lines := Cards(qs, v).value;
    forall k | 0 <= k < |qs|
      ensures '\n' !in lines[k]
      ensures Split(lines[k], '\t') == [Front(qs[k]), Back(AnswerText(qs[k], v).value, qs[k])]
    {
      CardLine(Front(qs[k]), Back(AnswerText(qs[k], v).value, qs[k]));
    }
    SplitJoin(lines, '\n');
  }

  /** A card line built from one-line fields is one line, and splits at its tab into those fields. */
  lemma CardLine(f: string, b: string)
    requires '\n' !in f && '\t' !in f && '\n' !in b && '\t' !in b
    ensures '\n' !in f + "\t" + b
    ensures Split(f + "\t" + b, '\t') == [f, b]
  {
    assert Join([f, b], "\t") == f + "\t" + b by {
      assert [f, b][1..] == [b];
    }
    SplitJoin([f, b], '\t');
  }

  /** An empty quiz exports nothing. */
  lemma EmptyQuizExportsNothing(title: string, v: Variant)
    ensures ExportQuiz([], title, v) == NothingToExport
  {
  }

  /** `\w`: ASCII letters, digits and the underscore. */
  predicate IsWordChar(c: char) {
    'a' <= c <= 'z' || 'A' <= c <= 'Z' || '0' <= c <= '9' || c == '_'
  }

  predicate IsNameChar(c: char) {
    IsWordChar(c) || c == '-'
  }

  predicate AllNameChars(s: string) {
    forall i :: 0 <= i < |s| ==> IsNameChar(s[i])
  }

  /** `replace(/[^\w\s-]/g, '')`: keeps the name characters and white space, in order. */
  function KeepTitleChars(s: string): (r: string)
    ensures |r| <= |s|
    ensures forall c :: c in r <==> c in s && (IsNameChar(c) || IsSpace(c))
  {
    if s == [] then []
    else
      var rest := KeepTitleChars(s[1..]);
      assert s == [s[0]] + s[1..];
      if IsNameChar(s[0]) || IsSpace(s[0]) then [s[0]] + rest else rest
  }

  /** The filter works character by character: it distributes over concatenation. */
  lemma {:induction false} KeepTitleCharsAppend(a: string, b: string)
    ensures KeepTitleChars(a + b) == KeepTitleChars(a) + KeepTitleChars(b)
  {
    if a == [] {
      assert a + b == b;
    } else {
      assert (a + b)[0] == a[0] && (a + b)[1..] == a[1..] + b;
      KeepTitleCharsAppend(a[1..], b);
    }
  }

  /** `replace(/\s+/g, '_')`: every run of white space becomes one underscore. */
  function Underscored(s: string): (r: string)
    ensures r == [] <==> s == []
    ensures forall i :: 0 <= i < |r| ==> r[i] == '_' || r[i] in s
    ensures forall i :: 0 <= i < |r| ==> !IsSpace(r[i])
  {
    UnderscoredFrom(s, false)
  }

  /**
   * The scan behind `Underscored`. `inRun` says that the character before
   * `s` was white space, whose underscore is already written.
   */
  function UnderscoredFrom(s: string, inRun: bool): (r: string)
    ensures !inRun ==> (r == [] <==> s == [])
    ensures forall i :: 0 <= i < |r| ==> r[i] == '_' || r[i] in s
    ensures forall i :: 0 <= i < |r| ==> !IsSpace(r[i])
    decreases |s|
  {
    if s == [] then []
    else
      var rest := UnderscoredFrom(s[1..], IsSpace(s[0]));
      assert forall c :: c in s[1..] ==> c in s;
      if !IsSpace(s[0]) then [s[0]] + rest
      else if inRun then rest
      else "_" + rest
  }

  /** Whether the scan is inside a run of white space after reading `a`. */
  function EndsInRun(a: string, inRun: bool): bool {
    if a == [] then inRun else IsSpace(a[|a| - 1])
  }

  /** The scan distributes over concatenation, carrying whether `a` ended in a run. */
  lemma {:induction false} UnderscoredFromAppend(a: string, b: string, inRun: bool)
    ensures UnderscoredFrom(a + b, inRun) == UnderscoredFrom(a, inRun) + UnderscoredFrom(b, EndsInRun(a, inRun))
    decreases |a|
  {
    if a == [] {
      assert a + b == b;
    } else {
      assert (a + b)[0] == a[0] && (a + b)[1..] == a[1..] + b;
      UnderscoredFromAppend(a[1..], b, IsSpace(a[0]));
      assert EndsInRun(a[1..], IsSpace(a[0])) == EndsInRun(a, inRun);
    }
  }

  /** A text that starts with another character than white space is scanned alike inside or outside a run. */
  lemma UnderscoredFromStart(b: string, inRun: bool)
    requires b == [] || !IsSpace(b[0])
    ensures UnderscoredFrom(b, inRun) == Underscored(b)
  {
  }

  /** Inside a run, more white space writes nothing. */
  lemma {:induction false} UnderscoredFromSpaces(w: string)
    requires AllSpace(w)
    ensures UnderscoredFrom(w, true) == []
    decreases |w|
  {
    if w != [] {
      UnderscoredFromSpaces(w[1..]);
    }
  }

  /** A whole run of white space, up to the next other character, is one underscore. */
  lemma UnderscoredRun(w: string, b: string)
    requires AllSpace(w) && w != [] && (b == [] || !IsSpace(b[0]))
    ensures Underscored(w + b) == "_" + Underscored(b)
  {
    UnderscoredFromAppend(w, b, false);
    UnderscoredFromSpaces(w[1..]);
    UnderscoredFromStart(b, true);
  }

  /**
   * Splitting the title anywhere but inside a run of white space splits the
   * result there too: other characters are kept, in order.
   */
  lemma UnderscoredAppend(a: string, b: string)
    requires a == [] || b == [] || !IsSpace(a[|a| - 1]) || !IsSpace(b[0])
    ensures Underscored(a + b) == Underscored(a) + Underscored(b)
  {
    UnderscoredFromAppend(a, b, false);
    if b == [] || !IsSpace(b[0]) {
      UnderscoredFromStart(b, EndsInRun(a, false));
    }
  }

  /** The file-name stem: the cleaned title, or `quiz` when nothing is left of it. */
  function Stem(title: string): (r: string)
    ensures r != []
    ensures AllNameChars(r)
  {
    var kept := KeepTitleChars(title);
    var t := Trim(kept);
    TrimKeepsChars(kept);
    var u := Underscored(t);
    if u == "" then "quiz" else u
  }

  /**
   * `quiz` is used exactly when the kept characters are all white space;
   * otherwise the stem is the trimmed, underscored title.
   */
  lemma StemFallback(title: string)
    ensures AllSpace(KeepTitleChars(title)) ==> Stem(title) == "quiz"
    ensures !AllSpace(KeepTitleChars(title)) ==> Stem(title) == Underscored(Trim(KeepTitleChars(title)))
  {
    TrimBlank(KeepTitleChars(title));
  }

  /** A title made only of name characters is its own stem. */
  lemma StemKeepsCleanTitle(title: string)
    requires AllNameChars(title) && title != []
    ensures Stem(title) == title
  {
    KeepNameChars(title);
    TrimNameChars(title);
    UnderscoredNameChars(title);
  }

  /** The downloaded file's name: the stem, then `_anki_export.txt`. */
  function FileName(title: string): (r: string)
    ensures |r| > 16 && r[|r| - 16..] == "_anki_export.txt"
    ensures r[..|r| - 16] != [] && AllNameChars(r[..|r| - 16])
  {
    var stem := Stem(title);
    var r := stem + "_anki_export.txt";
    assert r[..|stem|] == stem && r[|stem|..] == "_anki_export.txt";
    r
  }

  lemma {:induction false} KeepNameChars(s: string)
    requires AllNameChars(s)
    ensures KeepTitleChars(s) == s
  {
    if s != [] {
      KeepNameChars(s[1..]);
      assert s == [s[0]] + s[1..];
    }
  }

  lemma {:induction false} UnderscoredNameChars(s: string)
    requires AllNameChars(s)
    ensures Underscored(s) == s
  {
    if s != [] {
      UnderscoredNameChars(s[1..]);
      assert s == [s[0]] + s[1..];
    }
  }

  /** Cleaning a stem again leaves it as it is. */
  lemma StemIdempotent(title: string)
    ensures Stem(Stem(title)) == Stem(title)
  {
    StemKeepsCleanTitle(Stem(title));
  }

  /** A string of name characters has no white space to trim. */
  lemma TrimNameChars(s: string)
    requires AllNameChars(s)
    ensures Trim(s) == s
  {
    assert s != [] ==> IsNameChar(s[0]) && IsNameChar(s[|s| - 1]);
    TrimUnique([], s, []);
    assert [] + s + [] == s;
  }
}
