/** js/managers/ScoreManager.js: the end-of-round score (element points,
    completion bonus, speed bonus or penalty, hint penalty, clamped at 0),
    the simplified running score, and Santa's one-shot hint. Button styling
    and text updates are outside this model. */
module ScoreManager {
  import opened Wrappers
  import opened GameUtils

  /** The `scoreBreakdown` record. */
  datatype Breakdown = Breakdown(elementPoints: int, completeBonus: int, speedBonus: int, hintPenalty: int)

  /** `getScoreBreakdown`: the breakdown plus the total. */
  datatype ScoreReport = ScoreReport(breakdown: Breakdown, total: int)

  /** What `useSantasHint` returns when it reveals a position. */
  datatype Hint = Hint(position: nat, element: Element)

  const ZeroBreakdown := Breakdown(0, 0, 0, 0)

  /** Guesses at which the speed bonus turns into a penalty. */
  const SpeedThreshold := 10

  function Max0(x: int): (r: int)
    ensures r >= 0 && r >= x && (r == 0 || r == x)
  {
    if x < 0 then 0 else x
  }

  /** The sum of the four parts, never negative. */
  function Total(b: Breakdown): (r: int)
    ensures r >= 0
  {
    Max0(b.elementPoints + b.completeBonus + b.speedBonus + b.hintPenalty)
  }

  /** 75 points per guess saved below 10, 25 points lost per guess above 10. */
  function SpeedBonus(guessesUsed: int): (r: int)
    ensures r > 0 <==> guessesUsed < SpeedThreshold
    ensures r < 0 <==> guessesUsed > SpeedThreshold
  {
    if guessesUsed < SpeedThreshold then (SpeedThreshold - guessesUsed) * 75
    else if guessesUsed > SpeedThreshold then (SpeedThreshold - guessesUsed) * 25
    else 0
  }

  /** The breakdown `calculateFinalScore` records, from the feedback of the
      final guess. */
  function FinalBreakdown(perfect: nat, close: nat, guessesUsed: int, gameWon: bool, hintUsed: bool): (r: Breakdown)
    ensures r.elementPoints == 200 * perfect + 100 * close
    ensures r.completeBonus == (if gameWon then 300 else 0)
    ensures r.hintPenalty == (if hintUsed then -200 else 0)
  {
    Breakdown(perfect * 200 + close * 100, if gameWon then 300 else 0, SpeedBonus(guessesUsed),
              if hintUsed then -200 else 0)
  }

  /** The speed rule never rewards an extra guess. */
  lemma SpeedBonusNonIncreasing(g: int, h: int)
    requires g <= h
    ensures SpeedBonus(h) <= SpeedBonus(g)
  {
  }

  /** With everything else fixed, a later finish never scores more, a used
      hint never scores more, and a win never scores less. */
  lemma FinalScoreMonotone(perfect: nat, close: nat, g: int, h: int, won: bool, hint: bool)
    requires g <= h
    ensures Total(FinalBreakdown(perfect, close, h, won, hint)) <= Total(FinalBreakdown(perfect, close, g, won, hint))
    ensures Total(FinalBreakdown(perfect, close, g, won, true)) <= Total(FinalBreakdown(perfect, close, g, won, false))
    ensures Total(FinalBreakdown(perfect, close, g, false, hint)) <= Total(FinalBreakdown(perfect, close, g, true, hint))
  {
    SpeedBonusNonIncreasing(g, h);
  }

  /** A perfect round: every element exact, won in one guess without the
      hint, on a five-element code. */
  lemma BestFiveElementRound()
    ensures Total(FinalBreakdown(5, 0, 1, true, false)) == 1000 + 300 + 675
  {
  }

  /** `calculateScore`: 1000 less 100 per guess used, then 200 less with a
      hint, clamped at 0 both times. */
  function OngoingScore(maxGuesses: int, guessesRemaining: int, hintUsed: bool): (r: int)
    ensures 0 <= r
    ensures maxGuesses - guessesRemaining >= 0 ==> r <= 1000
  {
    var base := Max0(1000 - (maxGuesses - guessesRemaining) * 100);
    Max0(if hintUsed then base - 200 else base)
  }

  /** The running score falls as guesses are used and never rises with the
      hint. */
  lemma OngoingScoreMonotone(maxGuesses: int, r1: int, r2: int, hint: bool)
    requires r2 <= r1
    ensures OngoingScore(maxGuesses, r2, hint) <= OngoingScore(maxGuesses, r1, hint)
    ensures OngoingScore(maxGuesses, r1, true) <= OngoingScore(maxGuesses, r1, false)
  {
  }

  class ScoreManager {
    var currentScore: int
    var hintUsed: bool
    const hintThreshold: int
    var scoreBreakdown: Breakdown

    constructor()
      ensures currentScore == 0 && !hintUsed && hintThreshold == 500
      ensures scoreBreakdown == ZeroBreakdown
    {
      currentScore := 0;
      hintUsed := false;
      hintThreshold := 500;
      scoreBreakdown := ZeroBreakdown;
    }

    /** `calculateElementFeedback`: the same splice algorithm as
        `GameUtils.calculateFeedback`, with black named perfect and white
        named close. */
    method CalculateElementFeedback(guess: seq<Element>, code: seq<Element>) returns (perfect: nat, close: nat)
      ensures perfect == ExactMatches(guess, code)
      ensures perfect + close == CommonCount(guess, code)
      ensures Feedback(perfect, close) == FeedbackOf(guess, code)
    {
      var fb := CalculateFeedback(guess, code);
      perfect, close := fb.black, fb.white;
    }

    /** `calculateFinalScore`: records the breakdown for the final guess
        against the secret and sets the score to its clamped total. */
    method CalculateFinalScore(finalGuess: seq<Element>, secretCode: seq<Element>, guessesUsed: int, gameWon: bool)
      returns (score: int)
      modifies this
      ensures score == currentScore && score >= 0
      ensures scoreBreakdown
           == FinalBreakdown(FeedbackOf(finalGuess, secretCode).black, FeedbackOf(finalGuess, secretCode).white,
                             guessesUsed, gameWon, hintUsed)
      ensures currentScore == Total(scoreBreakdown)
      ensures hintUsed == old(hintUsed)
    {
      scoreBreakdown := ZeroBreakdown;
      var perfect, close := CalculateElementFeedback(finalGuess, secretCode);
      scoreBreakdown := scoreBreakdown.(elementPoints := perfect * 200 + close * 100);
      if gameWon {
        scoreBreakdown := scoreBreakdown.(completeBonus := 300);
      }
      if guessesUsed < 10 {
        scoreBreakdown := scoreBreakdown.(speedBonus := (10 - guessesUsed) * 75);
      } else if guessesUsed > 10 {
        scoreBreakdown := scoreBreakdown.(speedBonus := (10 - guessesUsed) * 25);
      }
      if hintUsed {
        scoreBreakdown := scoreBreakdown.(hintPenalty := -200);
      }
      currentScore := scoreBreakdown.elementPoints + scoreBreakdown.completeBonus
                      + scoreBreakdown.speedBonus + scoreBreakdown.hintPenalty;
      currentScore := if currentScore < 0 then 0 else currentScore;
      score := currentScore;
    }

    /** `getScoreBreakdown`. */
    function GetScoreBreakdown(): (r: ScoreReport)
      reads this
      ensures r.total == currentScore && r.breakdown == scoreBreakdown
    {
      ScoreReport(scoreBreakdown, currentScore)
    }

    /** `checkHintAvailability`: the hint is offered while unused and the
        score is at least the threshold. */
    function CheckHintAvailability(): (r: bool)
      reads this
      ensures r <==> !hintUsed && GetCurrentScore() >= hintThreshold
    {
      !hintUsed && currentScore >= hintThreshold
    }

    /** `useSantasHint`: when the hint is not offered, null and nothing
        changes; otherwise the hint is spent, the drawn position of the
        caller's guess receives the secret's element there, and that
        position and element are returned. */
    method UseSantasHint(secretCode: seq<Element>, currentGuess: array<Option<Element>>, draw: real)
      returns (r: Option<Hint>)
      requires 0.0 <= draw < 1.0
      requires |secretCode| > 0 && currentGuess.Length == |secretCode|
      modifies this, currentGuess
      ensures r.Some? <==> old(CheckHintAvailability())
      ensures r.None? ==> hintUsed == old(hintUsed) && currentGuess[..] == old(currentGuess[..])
      ensures r.Some? ==> && hintUsed && !CheckHintAvailability()
                          && r.value.position == PickIndex(draw, |secretCode|)
                          && r.value.element == secretCode[r.value.position]
                          && currentGuess[..] == old(currentGuess[..])[r.value.position := Some(r.value.element)]
      ensures currentScore == old(currentScore) && scoreBreakdown == old(scoreBreakdown)
    {
      if hintUsed || currentScore < hintThreshold {
        return None;
      }
      hintUsed := true;
      var position := PickIndex(draw, |secretCode|);
      var revealed := secretCode[position];
      currentGuess[position] := Some(revealed);
      r := Some(Hint(position, revealed));
    }

    /** `calculateScore`: the running score during play. */
    method CalculateScore(maxGuesses: int, guessesRemaining: int, codeLength: nat)
      modifies this
      ensures currentScore == OngoingScore(maxGuesses, guessesRemaining, hintUsed)
      ensures hintUsed == old(hintUsed) && scoreBreakdown == old(scoreBreakdown)
    {
      var guessesUsed := maxGuesses - guessesRemaining;
      currentScore := 1000 - guessesUsed * 100;
      currentScore := if currentScore < 0 then 0 else currentScore;
      if hintUsed {
        currentScore := currentScore - 200;
      }
      currentScore := if currentScore < 0 then 0 else currentScore;
    }

    /** `reset`: score 0 and the hint unused; the breakdown is kept. */
    method Reset()
      modifies this
      ensures currentScore == 0 && !hintUsed
      ensures scoreBreakdown == old(scoreBreakdown)
    {
      currentScore := 0;
      hintUsed := false;
    }

    /** `getCurrentScore`: the total the breakdown report shows. */
    function GetCurrentScore(): (r: int)
      reads this
      ensures r == GetScoreBreakdown().total
    {
      currentScore
    }

    /** `isHintUsed`: a used hint is never offered again. */
    function IsHintUsed(): (r: bool)
      reads this
      ensures r ==> !CheckHintAvailability()
    {
      hintUsed
    }
  }
}
