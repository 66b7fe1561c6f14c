/**
 * One study pass over a deck: the current card, whether it shows its answer, and how many
 * cards were graded correct so far. Grading the last card reports the final mastery.
 */
module FlashcardStudy {
  import opened Types

  // ---------------------------------------------------------------------------------------
  // Mastery arithmetic.

  /**
   * Math.round(correct / total * 100) for 0 <= correct <= total, total >= 1, computed on
   * integers: the nearest whole percentage, halves rounded up.
   */
  function RoundedPercent(correct: nat, total: nat): (r: int)
    requires 1 <= total && correct <= total
    ensures 0 <= r <= 100
    ensures 2 * total * r <= 200 * correct + total < 2 * total * (r + 1)
  {
    RoundingBounds(correct, total);
    (200 * correct + total) / (2 * total)
  }

  lemma RoundingBounds(correct: nat, total: nat)
    requires 1 <= total && correct <= total
    ensures var q := (200 * correct + total) / (2 * total);
      0 <= q <= 100 && 2 * total * q <= 200 * correct + total < 2 * total * (q + 1)
  {
    var num, den := 200 * correct + total, 2 * total;
    var q := num / den;
    assert den * q <= num < den * q + den;
    assert num <= 201 * total;
    if q > 100 {
      MulLeftMono(den, 101, q);
      assert false;
    }
  }

  /** The rounding condition pins the result down: no other integer satisfies it. */
  lemma RoundedPercentUnique(correct: nat, total: nat, m: int)
    requires 1 <= total && correct <= total
    requires 2 * total * m <= 200 * correct + total < 2 * total * (m + 1)
    ensures RoundedPercent(correct, total) == m
  {
    var r := RoundedPercent(correct, total);
    if r < m {
      assert 2 * total * (r + 1) <= 2 * total * m by { MulLeftMono(2 * total, r + 1, m); }
      assert false;
    } else if r > m {
      assert 2 * total * (m + 1) <= 2 * total * r by { MulLeftMono(2 * total, m + 1, r); }
      assert false;
    }
  }

  lemma MulLeftMono(k: nat, a: int, b: int)
    requires a <= b
    ensures k * a <= k * b
  {
    assert k * b - k * a == k * (b - a);
  }

  /** Every card right gives 100, every card wrong gives 0. */
  lemma RoundedPercentExtremes(total: nat)
    requires total >= 1
    ensures RoundedPercent(total, total) == 100
    ensures RoundedPercent(0, total) == 0
  {
    RoundedPercentUnique(total, total, 100);
    RoundedPercentUnique(0, total, 0);
  }

  /** More correct answers never lower the score. */
  lemma RoundedPercentMonotone(c1: nat, c2: nat, total: nat)
    requires 1 <= total && c1 <= c2 <= total
    ensures RoundedPercent(c1, total) <= RoundedPercent(c2, total)
  {
    var r1, r2 := RoundedPercent(c1, total), RoundedPercent(c2, total);
    if r1 > r2 {
      MulLeftMono(2 * total, r2 + 1, r1);
      assert false;
    }
  }

  // ---------------------------------------------------------------------------------------
  // Grade history.

  /** How many grades in the history were "correct". */
  function CountCorrect(grades: seq<bool>): (c: nat)
    ensures c <= |grades|
  {
    if grades == [] then 0 else CountCorrect(grades[..|grades| - 1]) + (if grades[|grades| - 1] then 1 else 0)
  }

  lemma {:induction false} CountCorrectAllTrue(grades: seq<bool>)
    requires forall i :: 0 <= i < |grades| ==> grades[i]
    ensures CountCorrect(grades) == |grades|
  {
    if grades != [] {
      CountCorrectAllTrue(grades[..|grades| - 1]);
    }
  }

  lemma {:induction false} CountCorrectAllFalse(grades: seq<bool>)
    requires forall i :: 0 <= i < |grades| ==> !grades[i]
    ensures CountCorrect(grades) == 0
  {
    if grades != [] {
      CountCorrectAllFalse(grades[..|grades| - 1]);
    }
  }

  /** The mastery reported when a session graded the cards of a deck as `grades`. */
  function SessionMastery(grades: seq<bool>): int
    requires |grades| >= 1
  {
    RoundedPercent(CountCorrect(grades), |grades|)
  }

  /** A session with every card graded right scores 100; with every card wrong, 0. */
  lemma SessionMasteryExtremes(grades: seq<bool>)
    requires |grades| >= 1
    ensures (forall i :: 0 <= i < |grades| ==> grades[i]) ==> SessionMastery(grades) == 100
    ensures (forall i :: 0 <= i < |grades| ==> !grades[i]) ==> SessionMastery(grades) == 0
  {
    RoundedPercentExtremes(|grades|);
    if forall i :: 0 <= i < |grades| ==> grades[i] {
      CountCorrectAllTrue(grades);
    }
    if forall i :: 0 <= i < |grades| ==> !grades[i] {
      CountCorrectAllFalse(grades);
    }
  }

  // ---------------------------------------------------------------------------------------
  // The session.

  class StudySession {
    const deck: Deck
    var currentIndex: nat
    var isFlipped: bool
    var correctCount: nat
    /** The grades given so far, in card order; the session ends when every card is graded. */
    ghost var grades: seq<bool>

    ghost predicate Valid()
      reads this
    {
      && |deck.cards| >= 1
      && |grades| <= |deck.cards|
      && correctCount == CountCorrect(grades)
      && currentIndex == (if |grades| == |deck.cards| then |deck.cards| - 1 else |grades|)
    }

    /** Every card has been graded and the final mastery has been reported. */
    ghost predicate Finished()
      reads this
    {
      |grades| == |deck.cards|
    }

    /** A session on a deck with at least one card (the first card is shown at once). */
    constructor (deck: Deck)
      requires |deck.cards| >= 1
      ensures Valid() && !Finished()
      ensures this.deck == deck
      ensures currentIndex == 0 && !isFlipped && correctCount == 0 && grades == []
    {
      this.deck := deck;
      currentIndex := 0;
      isFlipped := false;
      correctCount := 0;
      grades := [];
    }

    /** While the session runs, no more cards were graded correct than have been passed. */
    lemma CorrectAtMostIndex()
      requires Valid() && !Finished()
      ensures correctCount <= currentIndex < |deck.cards|
    {
    }

    /** The card shown now. */
    function CurrentCard(): (c: Flashcard)
      reads this
      requires Valid()
      ensures c in deck.cards
    {
      deck.cards[currentIndex]
    }

    /** Clicking the card turns it over; nothing else changes. */
    method Flip()
      requires Valid()
      modifies this
      ensures Valid()
      ensures isFlipped == !old(isFlipped)
      ensures currentIndex == old(currentIndex) && correctCount == old(correctCount)
      ensures grades == old(grades)
    {
      isFlipped := !isFlipped;
    }

    /**
     * Grades the current card. It does not look at `isFlipped`: only the hidden buttons keep
     * an unflipped card from being graded. On the last card it returns the final mastery and
     * stays on that card; otherwise it moves to the next card, question side up.
     */
    method HandleNext(isCorrect: bool) returns (finalMastery: Option<int>)
      requires Valid() && !Finished()
      modifies this
      ensures Valid()
      ensures grades == old(grades) + [isCorrect]
      ensures correctCount == old(correctCount) + (if isCorrect then 1 else 0)
      ensures old(currentIndex) < |deck.cards| - 1 ==>
        && currentIndex == old(currentIndex) + 1 && !isFlipped && !Finished() && finalMastery == None
      ensures old(currentIndex) == |deck.cards| - 1 ==>
        && currentIndex == old(currentIndex) && isFlipped == old(isFlipped) && Finished()
        && finalMastery == Some(SessionMastery(grades))
    {
      if isCorrect {
        correctCount := correctCount + 1;
      }
      grades := grades + [isCorrect];
      assert grades[..|grades| - 1] == old(grades);
      if currentIndex < |deck.cards| - 1 {
        isFlipped := false;
        currentIndex := currentIndex + 1;
        finalMastery := None;
      } else {
        finalMastery := Some(RoundedPercent(correctCount, |deck.cards|));
      }
    }
  }

  // ---------------------------------------------------------------------------------------
  // Sessions played through.

  /** A one-card deck graded right finishes at once with mastery 100. */
  method OneCardCorrect(deck: Deck) returns (finalMastery: Option<int>)
    requires |deck.cards| == 1
    ensures finalMastery == Some(100)
  {
    var session := new StudySession(deck);
    session.Flip();
    finalMastery := session.HandleNext(true);
    RoundedPercentExtremes(1);
  }

  /** A two-card deck graded wrong, then right, finishes with mastery 50. */
  method TwoCardsWrongThenRight(deck: Deck) returns (firstResult: Option<int>, finalMastery: Option<int>)
    requires |deck.cards| == 2
    ensures firstResult == None && finalMastery == Some(50)
  {
    var session := new StudySession(deck);
    session.Flip();
    firstResult := session.HandleNext(false);
    session.Flip();
    finalMastery := session.HandleNext(true);
    assert session.grades == [false, true];
    assert CountCorrect([false, true]) == 1 by {
      assert [false, true][..1] == [false];
      assert [false][..0] == [];
    }
    RoundedPercentUnique(1, 2, 50);
  }

  /** The grading method accepts an unflipped card: the guard lives only in the screen. */
  method GradeWithoutFlipping(deck: Deck) returns (correctAfter: nat, flippedBefore: bool)
    requires |deck.cards| >= 2
    ensures !flippedBefore && correctAfter == 1
  {
    var session := new StudySession(deck);
    flippedBefore := session.isFlipped;
    var _ := session.HandleNext(true);
    correctAfter := session.correctCount;
  }
}
