/**
 * The smart-recall scheduler: a simplified SuperMemo-2 rule over a deck of
 * recall items. Ease factors are kept in hundredths (2.5 is 250) so that the
 * arithmetic is exact.
 */
module Scheduler {
  import opened Common
  import opened Text
  import opened QuizTypes

  const InitialEase := 250    // 2.5
  const MinEase := 130        // 1.3
  const ForgotPenalty := 20   // 0.2
  const EasyBonus := 15       // 0.15
  const EasyMultiplier := 130 // 1.3
  const DayMs := 86400000     // 24 * 60 * 60 * 1000

  /** A deck entry; its id is the `Date.now()` of the moment it was added. */
  datatype RecallItem = RecallItem(
    id: Millis,
    questionData: Question,
    nextReviewDate: int,
    interval: nat,     // days
    easeFactor: nat)   // hundredths

  /** The grade of a review; `Unmatched` is a grade name none of the rules handles. */
  datatype Performance = Forgot | Good | Easy | Unmatched

  /** The bounds the scheduling rule keeps: ease at least 1.3, interval at least one day. */
  predicate WellScheduled(item: RecallItem) {
    item.easeFactor >= MinEase && item.interval >= 1
  }

  predicate DeckScheduled(deck: seq<RecallItem>) {
    forall i :: 0 <= i < |deck| ==> WellScheduled(deck[i])
  }

  /**
   * Applies a grade at time `now`: forgot resets the interval to one day and
   * lowers the ease by 0.2, never below 1.3; good multiplies the interval by
   * the ease; easy multiplies it by the ease and by 1.3 and raises the ease by
   * 0.15; every multiplication rounds up. The next review is `interval` days
   * after `now`.
   */
  function Apply(item: RecallItem, p: Performance, now: int): (r: RecallItem)
    ensures r.id == item.id && r.questionData == item.questionData
    ensures r.nextReviewDate == now + r.interval * DayMs
    ensures p == Forgot ==> r.interval == 1 && r.easeFactor == Max(MinEase, item.easeFactor - ForgotPenalty)
    ensures p == Good ==>
      r.easeFactor == item.easeFactor
      && 100 * (r.interval - 1) < item.interval * item.easeFactor <= 100 * r.interval
    ensures p == Easy ==>
      r.easeFactor == item.easeFactor + EasyBonus
      && 10000 * (r.interval - 1) < item.interval * item.easeFactor * EasyMultiplier <= 10000 * r.interval
    ensures p == Unmatched ==> r.interval == item.interval && r.easeFactor == item.easeFactor
  {
    var interval :=
      match p
      case Forgot => 1
      case Good => (item.interval * item.easeFactor + 99) / 100
      case Easy => (item.interval * item.easeFactor * EasyMultiplier + 9999) / 10000
      case Unmatched => item.interval;
    var ease :=
      match p
      case Forgot => Max(MinEase, item.easeFactor - ForgotPenalty)
      case Easy => item.easeFactor + EasyBonus
      case _ => item.easeFactor;
    item.(interval := interval, easeFactor := ease, nextReviewDate := now + interval * DayMs)
  }

  /** Every grade keeps the ease at or above 1.3 and the interval at least one day. */
  lemma ApplyKeepsScheduled(item: RecallItem, p: Performance, now: int)
    requires WellScheduled(item)
    ensures WellScheduled(Apply(item, p, now))
  {
    if p == Good {
      ProductAtLeastOne(item.interval, item.easeFactor);
    } else if p == Easy {
      ProductAtLeastOne(item.interval, item.easeFactor);
      ProductAtLeastOne(item.interval * item.easeFactor, EasyMultiplier);
    }
  }

  lemma MulAtLeast(x: nat, a: int, b: int)
    requires a >= b
    ensures x * a >= x * b
  {
  }

  lemma ProductAtLeastOne(x: nat, y: nat)
    requires x >= 1 && y >= 1
    ensures x * y >= 1
  {
  }

  /** A good grade strictly lengthens the interval, because the ease is above 1. */
  lemma GoodGrows(item: RecallItem, now: int)
    requires WellScheduled(item)
    ensures Apply(item, Good, now).interval > item.interval
  {
    var r := Apply(item, Good, now);
    MulAtLeast(item.interval, item.easeFactor, MinEase);
    assert 100 * r.interval >= 130 * item.interval;
  }

  /** An easy grade strictly lengthens the interval and raises the ease. */
  lemma EasyGrows(item: RecallItem, now: int)
    requires WellScheduled(item)
    ensures Apply(item, Easy, now).interval > item.interval
    ensures Apply(item, Easy, now).easeFactor > item.easeFactor
  {
    var r := Apply(item, Easy, now);
    MulAtLeast(item.interval, item.easeFactor, MinEase);
    assert 10000 * r.interval >= 16900 * item.interval;
  }

  /** A graded item is next due strictly after the moment it was graded. */
  lemma GradedNotDue(item: RecallItem, p: Performance, now: int)
    requires WellScheduled(item)
    ensures Apply(item, p, now).nextReviewDate > now
  {
    ApplyKeepsScheduled(item, p, now);
  }

  /** `deck.findIndex(i => i.id === id)`. */
  function FindIndex(deck: seq<RecallItem>, id: int): (r: int)
    ensures -1 <= r < |deck|
    ensures r == -1 <==> forall i :: 0 <= i < |deck| ==> deck[i].id != id
    ensures r >= 0 ==> deck[r].id == id && forall i :: 0 <= i < r ==> deck[i].id != id
  {
    if deck == [] then -1
    else if deck[0].id == id then 0
    else
      var k := FindIndex(deck[1..], id);
      assert forall i :: 1 <= i < |deck| ==> deck[i] == deck[1..][i - 1];
      if k == -1 then -1 else k + 1
  }

  /** The deck after `updateRecallItem(id, p)`: the first item with that id is regraded. */
  function Regraded(deck: seq<RecallItem>, id: int, p: Performance, now: int): (r: seq<RecallItem>)
    ensures |r| == |deck|
    ensures forall j :: 0 <= j < |deck| && j != FindIndex(deck, id) ==> r[j] == deck[j]
    ensures FindIndex(deck, id) >= 0 ==> r[FindIndex(deck, id)] == Apply(deck[FindIndex(deck, id)], p, now)
  {
    var i := FindIndex(deck, id);
    if i == -1 then deck else deck[i := Apply(deck[i], p, now)]
  }

  /** Regrading keeps every item of the deck within the scheduling bounds. */
  lemma RegradedKeepsScheduled(deck: seq<RecallItem>, id: int, p: Performance, now: int)
    requires DeckScheduled(deck)
    ensures DeckScheduled(Regraded(deck, id, p, now))
  {
    var i := FindIndex(deck, id);
    if i != -1 {
      ApplyKeepsScheduled(deck[i], p, now);
    }
  }

  /** `deck.filter(item => item.nextReviewDate <= now)`. */
  function Due(deck: seq<RecallItem>, now: int): (r: seq<RecallItem>)
    ensures |r| <= |deck|
    ensures forall x :: x in r <==> x in deck && x.nextReviewDate <= now
  {
    if deck == [] then []
    else
      var rest := Due(deck[1..], now);
      assert deck == [deck[0]] + deck[1..];
      if deck[0].nextReviewDate <= now then [deck[0]] + rest else rest
  }

  /** The due list keeps deck order: filtering a concatenation concatenates the filtered parts. */
  lemma {:induction false} DueAppend(a: seq<RecallItem>, b: seq<RecallItem>, now: int)
    ensures Due(a + b, now) == Due(a, now) + Due(b, now)
  {
    if a == [] {
      assert a + b == b;
    } else {
      assert (a + b)[0] == a[0] && (a + b)[1..] == a[1..] + b;
      DueAppend(a[1..], b, now);
    }
  }

  /** An item just graded is no longer due at the moment of grading. */
  lemma RegradedLeavesDue(deck: seq<RecallItem>, id: int, p: Performance, now: int)
    requires DeckScheduled(deck) && FindIndex(deck, id) >= 0
    ensures Regraded(deck, id, p, now)[FindIndex(deck, id)] !in Due(Regraded(deck, id, p, now), now)
  {
    GradedNotDue(deck[FindIndex(deck, id)], p, now);
  }

  /** `deck.some(item => JSON.stringify(item.questionData) === JSON.stringify(q))`, as structural equality. */
  predicate Contains(deck: seq<RecallItem>, q: Question) {
    exists i :: 0 <= i < |deck| && deck[i].questionData == q
  }

  /** A new deck entry: identified by the clock, due at once, interval one day and ease 2.5. */
  function NewItem(q: Question, now: Millis): (r: RecallItem)
    ensures r.questionData == q && r.id == now && r.nextReviewDate <= now
    ensures WellScheduled(r) && r.easeFactor == InitialEase
  {
    RecallItem(now, q, now, 1, InitialEase)
  }

  /** The deck after `addQuestionToRecall(q)`: unchanged if the question is there, else one new item at the end. */
  function Added(deck: seq<RecallItem>, q: Question, now: Millis): (r: seq<RecallItem>)
    ensures Contains(r, q)
    ensures deck <= r && |r| <= |deck| + 1
    ensures Contains(deck, q) <==> r == deck
  {
    if Contains(deck, q) then deck
    else
      var r := deck + [NewItem(q, now)];
      assert r[|deck|].questionData == q;
      r
  }

  /** A question is in a concatenated deck iff it is in one of the parts. */
  lemma ContainsAppend(a: seq<RecallItem>, b: seq<RecallItem>, q: Question)
    ensures Contains(a + b, q) <==> Contains(a, q) || Contains(b, q)
  {
    if Contains(a + b, q) {
      var i :| 0 <= i < |a + b| && (a + b)[i].questionData == q;
      if i >= |a| {
        assert b[i - |a|] == (a + b)[i];
      }
    }
    if Contains(a, q) {
      var i :| 0 <= i < |a| && a[i].questionData == q;
      assert (a + b)[i] == a[i];
    }
    if Contains(b, q) {
      var i :| 0 <= i < |b| && b[i].questionData == q;
      assert (a + b)[|a| + i] == b[i];
    }
  }

  /** Adding the same question again changes nothing, whenever it happens. */
  lemma AddedIdempotent(deck: seq<RecallItem>, q: Question, now: Millis, later: Millis)
    ensures Added(Added(deck, q, now), q, later) == Added(deck, q, now)
  {
  }

  /** A new question is due at once: it joins the end of the due list. */
  lemma AddedIsDue(deck: seq<RecallItem>, q: Question, now: Millis)
    requires !Contains(deck, q)
    ensures Due(Added(deck, q, now), now) == Due(deck, now) + [NewItem(q, now)]
  {
    DueAppend(deck, [NewItem(q, now)], now);
  }

  /** A new item starts within the scheduling bounds. */
  lemma AddedKeepsScheduled(deck: seq<RecallItem>, q: Question, now: Millis)
    requires DeckScheduled(deck)
    ensures DeckScheduled(Added(deck, q, now))
  {
  }

  /** A grade name as the rules know it; any other name matches no rule. */
  function NamedPerformance(s: string): (r: Performance)
    ensures r == Unmatched <==> s != "forgot" && s != "good" && s != "easy"
  {
    if s == "forgot" then Forgot else if s == "good" then Good else if s == "easy" then Easy else Unmatched
  }

  /** The grade of a feedback button given its element id: `id.split('-')[1]`. */
  function ButtonPerformance(id: string): (r: Performance)
    ensures '-' !in id ==> r == Unmatched
  {
    match FieldAt(id, '-', 1)
    case None => Unmatched
    case Some(s) => NamedPerformance(s)
  }

  /** The grade the button `recall-<name>-btn` gives is the one its middle segment names. */
  lemma {:induction false} ButtonGrade(name: string)
    requires '-' !in name
    ensures ButtonPerformance("recall-" + name + "-btn") == NamedPerformance(name)
  {
    var parts := ["recall", name, "btn"];
    assert Join(parts, "-") == "recall-" + name + "-btn" by {
      assert Join(parts[2..], "-") == "btn";
      assert parts[1..][1..] == parts[2..];
    }
    SplitJoin(parts, '-');
  }
}
