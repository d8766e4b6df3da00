/** js/managers/GameStateManager.js: the round's secret code, the guesses
    left and the win / game-over flags. The scene registry is read by the
    caller and passed in; random draws come in as numbers in [0, 1). */
module GameStateManager {
  import opened Wrappers
  import opened GameUtils

  /** What `processGuess` returns. */
  datatype GuessOutcome = GuessOutcome(feedback: Feedback, isWin: bool, isGameOver: bool, guessesRemaining: int)

  /** What `getGameStats` returns. */
  datatype GameStats = GameStats(codeLength: int, maxGuesses: int, guessesRemaining: int,
                                 secretCode: seq<Element>, isWon: bool, gameComplete: bool)

  /** JavaScript `value || fallback` for a registry number: a missing entry
      or 0 gives the fallback. */
  function OrDefault(value: Option<int>, fallback: int): (r: int)
    ensures value.Some? && value.value != 0 ==> r == value.value
    ensures value.None? || value.value == 0 ==> r == fallback
  {
    if value.Some? && value.value != 0 then value.value else fallback
  }

  class GameStateManager {
    const elements: seq<Element> := GameElements()
    var codeLength: int
    var maxGuesses: int
    var guessesRemaining: int
    var secretCode: seq<Element>
    var isWon: bool
    var gameComplete: bool
    /** The guesses processed since the last initialisation or reset. */
    ghost var guessesUsed: nat

    /** The guesses left are the limit minus the guesses processed. */
    ghost predicate Counted()
      reads this
    {
      guessesRemaining == maxGuesses - guessesUsed
    }

    constructor()
      ensures elements == GameElements()
      ensures codeLength == 4 && maxGuesses == 10 && guessesRemaining == 10
      ensures secretCode == [] && !isWon && !gameComplete
      ensures guessesUsed == 0 && Counted()
    {
      codeLength := 4;
      maxGuesses := 10;
      guessesRemaining := 10;
      secretCode := [];
      isWon := false;
      gameComplete := false;
      guessesUsed := 0;
    }

    /** `initializeGameState`: code length and guess limit from the registry
        (4 and 10 when missing or 0), a full set of guesses, and a fresh
        secret drawn from the game's elements. The flags are left as they
        were. */
    method InitializeGameState(registryCodeLength: Option<int>, registryMaxGuesses: Option<int>, draws: seq<real>)
      requires |elements| > 0
      requires |draws| == OrDefault(registryCodeLength, 4)
      requires forall k :: 0 <= k < |draws| ==> 0.0 <= draws[k] < 1.0
      modifies this
      ensures codeLength == OrDefault(registryCodeLength, 4) && |secretCode| == codeLength
      ensures maxGuesses == OrDefault(registryMaxGuesses, 10) && guessesRemaining == maxGuesses
      ensures forall k :: 0 <= k < |secretCode| ==> secretCode[k] == elements[PickIndex(draws[k], |elements|)]
      ensures isWon == old(isWon) && gameComplete == old(gameComplete)
      ensures guessesUsed == 0 && Counted() && (IsGameOver() <==> maxGuesses <= 0)
    {
      codeLength := OrDefault(registryCodeLength, 4);
      maxGuesses := OrDefault(registryMaxGuesses, 10);
      guessesRemaining := maxGuesses;
      guessesUsed := 0;
      secretCode := GenerateRandomCode(elements, codeLength, draws);
    }

    /** `processGuess`: scores the guess against the secret, spends one
        guess (with no check that the game is still running), and sets the
        flags: a win sets both, a losing last guess only `gameComplete`. */
    method ProcessGuess(guess: seq<Element>) returns (outcome: GuessOutcome)
      modifies this
      ensures outcome.feedback == FeedbackOf(guess, secretCode)
      ensures guessesRemaining == old(guessesRemaining) - 1 && outcome.guessesRemaining == guessesRemaining
      ensures outcome.isWin == IsGameWon(outcome.feedback) && outcome.isGameOver == IsGameOver()
      ensures outcome.isGameOver <==> old(guessesRemaining) <= 1
      ensures |secretCode| == codeLength ==>
                (outcome.isWin <==> |secretCode| <= |guess| && guess[..|secretCode|] == secretCode)
      ensures isWon == (old(isWon) || outcome.isWin)
      ensures gameComplete == (old(gameComplete) || outcome.isWin || outcome.isGameOver)
      ensures secretCode == old(secretCode) && codeLength == old(codeLength) && maxGuesses == old(maxGuesses)
      ensures guessesUsed == old(guessesUsed) + 1
      ensures old(Counted()) ==> Counted() && (outcome.isGameOver <==> guessesUsed >= maxGuesses)
    {
      var feedback := CalculateFeedback(guess, secretCode);
      guessesRemaining := guessesRemaining - 1;
      guessesUsed := guessesUsed + 1;
      var isWin := feedback.black == codeLength;
      var isGameOver := guessesRemaining <= 0;
      if isWin {
        isWon := true;
        gameComplete := true;
      } else if isGameOver {
        gameComplete := true;
      }
      AllBlackIffEqual(guess, secretCode);
      outcome := GuessOutcome(feedback, isWin, isGameOver, guessesRemaining);
    }

    /** `isGameWon`: all pegs black. */
    predicate IsGameWon(feedback: Feedback)
      reads this
    {
      feedback.black == codeLength
    }

    /** `isGameOver`: no guesses left. */
    predicate IsGameOver()
      reads this
    {
      guessesRemaining <= 0
    }

    /** `getGameStats`, with the secret copied. */
    function GetGameStats(): (r: GameStats)
      reads this
      ensures r.secretCode == GetSecretCode() && r.guessesRemaining == guessesRemaining
      ensures r.isWon == isWon && r.gameComplete == gameComplete
      ensures r.codeLength == codeLength && r.maxGuesses == maxGuesses
    {
      GameStats(codeLength, maxGuesses, guessesRemaining, secretCode, isWon, gameComplete)
    }

    /** `getSecretCode`: a copy, so later changes to it cannot reach the
        manager; a value sequence in the model. Once the secret has the
        configured length, it is the one guess of that length that wins. */
    function GetSecretCode(): (r: seq<Element>)
      reads this
      ensures |secretCode| == codeLength ==>
                forall guess :: |guess| == codeLength ==> (IsGameWon(FeedbackOf(guess, secretCode)) <==> guess == r)
    {
      OnlySecretWins(this);
      secretCode
    }

    /** `getGameElements`: a copy of the game's six distinct elements. */
    function GetGameElements(): (r: seq<Element>)
      reads this
      ensures |r| == 6 && forall i, j :: 0 <= i < j < |r| ==> r[i] != r[j]
    {
      elements
    }

    /** `reset`: a full set of guesses, a new secret of the current length,
        and both flags cleared. */
    method Reset(draws: seq<real>)
      requires |elements| > 0
      requires |draws| == codeLength
      requires forall k :: 0 <= k < |draws| ==> 0.0 <= draws[k] < 1.0
      modifies this
      ensures guessesRemaining == maxGuesses && !isWon && !gameComplete
      ensures codeLength == old(codeLength) && maxGuesses == old(maxGuesses)
      ensures |secretCode| == codeLength
      ensures forall k :: 0 <= k < |secretCode| ==> secretCode[k] == elements[PickIndex(draws[k], |elements|)]
      ensures guessesUsed == 0 && Counted()
    {
      guessesRemaining := maxGuesses;
      guessesUsed := 0;
      secretCode := GenerateRandomCode(elements, codeLength, draws);
      isWon := false;
      gameComplete := false;
    }
  }

  /** The secret is the only guess of the configured length that wins. */
  lemma OnlySecretWins(m: GameStateManager)
    ensures |m.secretCode| == m.codeLength ==>
              forall guess :: |guess| == m.codeLength ==> (m.IsGameWon(FeedbackOf(guess, m.secretCode)) <==> guess == m.secretCode)
  {
    if |m.secretCode| == m.codeLength {
      forall guess | |guess| == m.codeLength
        ensures m.IsGameWon(FeedbackOf(guess, m.secretCode)) <==> guess == m.secretCode
      {
        WinMeansSecretGuessed(m, guess);
      }
    }
  }

  /** For a secret of the configured length, a guess of that length wins
      exactly when it is the secret, and a winning guess scores no white
      pegs. */
  lemma WinMeansSecretGuessed(m: GameStateManager, guess: seq<Element>)
    requires |m.secretCode| == m.codeLength && |guess| == |m.secretCode|
    ensures m.IsGameWon(FeedbackOf(guess, m.secretCode)) <==> guess == m.secretCode
    ensures m.IsGameWon(FeedbackOf(guess, m.secretCode)) ==> FeedbackOf(guess, m.secretCode).white == 0
  {
    AllBlackIffEqual(guess, m.secretCode);
    assert guess[..|m.secretCode|] == guess;
    if guess == m.secretCode {
      FeedbackBounded(guess, m.secretCode);
    }
  }
}
