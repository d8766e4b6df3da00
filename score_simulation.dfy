/** scripts/score_simulation.js: the stand-alone score formula used to study
    the score distribution, and the grid of rounds it enumerates. The
    per-bucket statistics and console tables built from that grid are
    outside this model. */
module ScoreSimulation {
  import opened GameUtils
  import opened ScoreManager

  /** The code length the simulation enumerates. */
  const SimCodeLength := 5

  /** `calculateScore(config)`: as the score manager's breakdown, except
      that a won round whose feedback is not all perfect is credited as if
      every element were perfect. */
  function SimBreakdown(perfect: nat, close: nat, codeLength: nat, guessesUsed: int, gameWon: bool, hintUsed: bool)
    : (r: Breakdown)
    ensures r.elementPoints == if gameWon && perfect != codeLength then 200 * codeLength else 200 * perfect + 100 * close
    ensures r.completeBonus == (if gameWon then 300 else 0)
    ensures r.speedBonus == SpeedBonus(guessesUsed)
    ensures r.hintPenalty == (if hintUsed then -200 else 0)
  {
    var elementPoints := if gameWon && perfect != codeLength then codeLength * 200 else perfect * 200 + close * 100;
    var completeBonus := if gameWon then 300 else 0;
    var speedBonus := if guessesUsed < 10 then (10 - guessesUsed) * 75
                      else if guessesUsed > 10 then (10 - guessesUsed) * 25
                      else 0;
    Breakdown(elementPoints, completeBonus, speedBonus, if hintUsed then -200 else 0)
  }

  /** Whenever a win means an all-perfect final guess, the simulation's
      breakdown and total are the score manager's. */
  lemma SimulationAgrees(perfect: nat, close: nat, codeLength: nat, g: int, won: bool, hint: bool)
    requires won ==> perfect == codeLength
    ensures SimBreakdown(perfect, close, codeLength, g, won, hint) == FinalBreakdown(perfect, close, g, won, hint)
    ensures Total(SimBreakdown(perfect, close, codeLength, g, won, hint)) == Total(FinalBreakdown(perfect, close, g, won, hint))
  {
  }

  /** In the game a round is won exactly when the final guess is all black,
      so for any final guess and secret the simulation's formula gives the
      score manager's result. */
  lemma GameRoundsAgree(guess: seq<Element>, secret: seq<Element>, g: int, hint: bool)
    ensures var fb := FeedbackOf(guess, secret);
            SimBreakdown(fb.black, fb.white, |secret|, g, fb.black == |secret|, hint)
            == FinalBreakdown(fb.black, fb.white, g, fb.black == |secret|, hint)
  {
  }

  /** A won round whose final feedback is not all perfect: the simulation
      credits five perfect elements, the score manager only what the
      feedback shows. */
  lemma ForcedCorrectionDiffers()
    ensures SimBreakdown(3, 2, 5, 6, true, false).elementPoints == 1000
    ensures FinalBreakdown(3, 2, 6, true, false).elementPoints == 800
  {
  }

  /** One row of `results`. */
  datatype SimEntry = SimEntry(guessesUsed: int, perfect: nat, close: nat, hintUsed: bool, breakdown: Breakdown, total: int)

  /** Rows the (perfect, close) pairs with perfect < p contribute: two per
      pair, with close running from 0 to SimCodeLength - perfect. */
  ghost function RowsBelow(p: nat): int
  {
    if p == 0 then 0 else RowsBelow(p - 1) + 2 * (SimCodeLength - (p - 1) + 1)
  }

  ghost predicate SimRow(e: SimEntry)
  {
    && 3 <= e.guessesUsed <= 14
    && e.perfect + e.close <= SimCodeLength
    && e.breakdown == SimBreakdown(e.perfect, e.close, SimCodeLength, e.guessesUsed, e.perfect == SimCodeLength, e.hintUsed)
    && e.total == Total(e.breakdown)
  }

  /** One guess count contributes 42 rows. */
  lemma RowsBelowAll()
    ensures RowsBelow(SimCodeLength + 1) == 42
  {
  }

  /** A point of the grid the simulation enumerates. */
  ghost predicate InGrid(g: int, p: nat, c: nat)
  {
    3 <= g <= 14 && p + c <= SimCodeLength
  }

  /** Where the loops put the row for (g, p, c) with hint index h (0 without
      the hint, 1 with it). */
  ghost function RowIndex(g: int, p: nat, c: nat, h: nat): int
  {
    (g - 3) * 42 + RowsBelow(p) + 2 * c + h
  }

  /** The loops' order: guess count, then perfect, then close, then hint. */
  ghost predicate Before(g: int, p: nat, c: nat, h: nat, g0: int, p0: nat, c0: nat, h0: nat)
  {
    g < g0 || (g == g0 && (p < p0 || (p == p0 && (c < c0 || (c == c0 && h < h0)))))
  }

  /** Row `i` is the one for (g, p, c) with hint index h. */
  ghost predicate RowIs(results: seq<SimEntry>, i: int, g: int, p: nat, c: nat, h: nat)
  {
    && 0 <= i < |results|
    && results[i].guessesUsed == g && results[i].perfect == p && results[i].close == c
    && results[i].hintUsed == (h == 1)
  }

  /** Every grid point the loops have passed before (g0, p0, c0, h0) has its
      row in place. */
  ghost predicate Covered(results: seq<SimEntry>, g0: int, p0: nat, c0: nat, h0: nat)
  {
    forall g, p: nat, c: nat, h: nat ::
      InGrid(g, p, c) && h < 2 && Before(g, p, c, h, g0, p0, c0, h0) ==> RowIs(results, RowIndex(g, p, c, h), g, p, c, h)
  }

  /** Appending the row for the current point extends the covered prefix by
      that point. */
  lemma CoverAppend(results: seq<SimEntry>, e: SimEntry, g0: int, p0: nat, c0: nat, h0: nat)
    requires Covered(results, g0, p0, c0, h0) && h0 < 2
    requires |results| == RowIndex(g0, p0, c0, h0)
    requires e.guessesUsed == g0 && e.perfect == p0 && e.close == c0 && e.hintUsed == (h0 == 1)
    ensures Covered(results + [e], g0, p0, c0, h0 + 1)
  {
    var r := results + [e];
    forall g, p: nat, c: nat, h: nat | InGrid(g, p, c) && h < 2 && Before(g, p, c, h, g0, p0, c0, h0 + 1)
      ensures RowIs(r, RowIndex(g, p, c, h), g, p, c, h)
    {
      if Before(g, p, c, h, g0, p0, c0, h0) {
        assert RowIs(results, RowIndex(g, p, c, h), g, p, c, h);
      } else {
        assert g == g0 && p == p0 && c == c0 && h == h0;
      }
    }
  }

  /** Past the last close count of a perfect count, the next perfect count
      starts. */
  lemma CoverNextPerfect(results: seq<SimEntry>, g0: int, p0: nat)
    requires p0 <= SimCodeLength
    requires Covered(results, g0, p0, SimCodeLength - p0 + 1, 0)
    ensures Covered(results, g0, p0 + 1, 0, 0)
  {
    forall g, p: nat, c: nat, h: nat | InGrid(g, p, c) && h < 2 && Before(g, p, c, h, g0, p0 + 1, 0, 0)
      ensures RowIs(results, RowIndex(g, p, c, h), g, p, c, h)
    {
      assert Before(g, p, c, h, g0, p0, SimCodeLength - p0 + 1, 0);
    }
  }

  /** Past the last perfect count of a guess count, the next guess count
      starts. */
  lemma CoverNextGuess(results: seq<SimEntry>, g0: int)
    requires Covered(results, g0, SimCodeLength + 1, 0, 0)
    ensures Covered(results, g0 + 1, 0, 0, 0)
  {
    forall g, p: nat, c: nat, h: nat | InGrid(g, p, c) && h < 2 && Before(g, p, c, h, g0 + 1, 0, 0, 0)
      ensures RowIs(results, RowIndex(g, p, c, h), g, p, c, h)
    {
      assert Before(g, p, c, h, g0, SimCodeLength + 1, 0, 0);
    }
  }

  /** The enumeration loops of `runSimulation`: 12 guess counts, the 21
      (perfect, close) pairs that fit a five-element code, each without and
      then with the hint; a round counts as won only when all five are
      perfect. Every grid point gets exactly the row `RowIndex` names. */
  method RunSimulation() returns (results: seq<SimEntry>)
    ensures |results| == 12 * 21 * 2
    ensures forall k :: 0 <= k < |results| ==> SimRow(results[k])
    ensures forall k :: 0 <= k < |results| ==> results[k].hintUsed == (k % 2 == 1)
    ensures forall g, p: nat, c: nat, h: nat :: InGrid(g, p, c) && h < 2 ==> RowIs(results, RowIndex(g, p, c, h), g, p, c, h)
  {
    results := [];
    var guessesUsed := 3;
    while guessesUsed <= 14
      invariant 3 <= guessesUsed <= 15
      invariant |results| == (guessesUsed - 3) * 42
      invariant forall k :: 0 <= k < |results| ==> SimRow(results[k]) && results[k].hintUsed == (k % 2 == 1)
      invariant Covered(results, guessesUsed, 0, 0, 0)
    {
      var perfect := 0;
      while perfect <= SimCodeLength
        invariant 0 <= perfect <= SimCodeLength + 1
        invariant |results| == (guessesUsed - 3) * 42 + RowsBelow(perfect)
        invariant forall k :: 0 <= k < |results| ==> SimRow(results[k]) && results[k].hintUsed == (k % 2 == 1)
        invariant Covered(results, guessesUsed, perfect, 0, 0)
      {
        var close := 0;
        while close <= SimCodeLength - perfect
          invariant 0 <= close <= SimCodeLength - perfect + 1
          invariant |results| == (guessesUsed - 3) * 42 + RowsBelow(perfect) + 2 * close
          invariant forall k :: 0 <= k < |results| ==> SimRow(results[k]) && results[k].hintUsed == (k % 2 == 1)
          invariant Covered(results, guessesUsed, perfect, close, 0)
        {
          var gameWon := perfect == SimCodeLength;
          var hints := [false, true];
          var h := 0;
          while h < |hints|
            invariant 0 <= h <= 2
            invariant |results| == (guessesUsed - 3) * 42 + RowsBelow(perfect) + 2 * close + h
            invariant forall k :: 0 <= k < |results| ==> SimRow(results[k]) && results[k].hintUsed == (k % 2 == 1)
            invariant Covered(results, guessesUsed, perfect, close, h)
          {
            var breakdown := SimBreakdown(perfect, close, SimCodeLength, guessesUsed, gameWon, hints[h]);
            var e := SimEntry(guessesUsed, perfect, close, hints[h], breakdown, Total(breakdown));
            CoverAppend(results, e, guessesUsed, perfect, close, h);
            results := results + [e];
            h := h + 1;
          }
          close := close + 1;
        }
        CoverNextPerfect(results, guessesUsed, perfect);
        perfect := perfect + 1;
      }
      RowsBelowAll();
      CoverNextGuess(results, guessesUsed);
      guessesUsed := guessesUsed + 1;
    }
  }
}
