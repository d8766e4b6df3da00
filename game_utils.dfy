/** The Mastermind feedback count shared by the whole game
    (js/utils/GameUtils.js), the random secret code and the element list. */
module GameUtils {

  /** Game elements are compared as strings, as JavaScript's `===` does. */
  type Element = string

  /** Feedback pegs for one guess: `black` counts right elements in the
      right position, `white` right elements in the wrong position. */
  datatype Feedback = Feedback(black: nat, white: nat)

  function Min(a: int, b: int): int { if a <= b then a else b }

  /** The suffix of `s` from index `k`, or nothing when `k` is past its end. */
  function Drop(s: seq<Element>, k: nat): seq<Element>
  {
    if k <= |s| then s[k..] else []
  }

  /** Number of positions that lie within both sequences and hold equal
      elements there. */
  function ExactMatches(guess: seq<Element>, code: seq<Element>): nat
  {
    if guess == [] || code == [] then 0
    else (if guess[0] == code[0] then 1 else 0) + ExactMatches(guess[1..], code[1..])
  }

  /** The elements of the exact matches, in position order. */
  function Matched(guess: seq<Element>, code: seq<Element>): seq<Element>
  {
    if guess == [] || code == [] then []
    else (if guess[0] == code[0] then [guess[0]] else []) + Matched(guess[1..], code[1..])
  }

  /** The guess with its exact matches taken out, order kept. */
  function LeftGuess(guess: seq<Element>, code: seq<Element>): seq<Element>
  {
    if guess == [] then []
    else if code == [] then guess
    else (if guess[0] == code[0] then [] else [guess[0]]) + LeftGuess(guess[1..], code[1..])
  }

  /** The code with its exact matches taken out, order kept. */
  function LeftCode(guess: seq<Element>, code: seq<Element>): seq<Element>
  {
    if code == [] then []
    else if guess == [] then code
    else (if guess[0] == code[0] then [] else [code[0]]) + LeftCode(guess[1..], code[1..])
  }

  /** The elements of `s` in order of first appearance (Array.from(new Set(s))). */
  function Dedup(s: seq<Element>): (r: seq<Element>)
    ensures forall x :: x in r <==> x in s
    ensures forall i, j :: 0 <= i < j < |r| ==> r[i] != r[j]
  {
    if s == [] then []
    else
      var r := Dedup(s[..|s| - 1]);
      if s[|s| - 1] in r then r else r + [s[|s| - 1]]
  }

  /** Dedup keeps first-seen order: its elements appear in `s` for the first
      time in the order Dedup lists them. */
  lemma {:induction false} DedupFirstSeen(s: seq<Element>)
    ensures forall i, j :: 0 <= i < j < |Dedup(s)| ==> IndexOf(s, Dedup(s)[i]) < IndexOf(s, Dedup(s)[j])
  {
    if s != [] {
      var p, x := s[..|s| - 1], s[|s| - 1];
      assert s == p + [x];
      DedupFirstSeen(p);
      IndexOfAppend(p, x);
    }
  }

  /** Appending an element keeps the first index of everything already
      present, and a new element is found at the end. */
  lemma {:induction false} IndexOfAppend(p: seq<Element>, x: Element)
    ensures forall y :: y in p ==> IndexOf(p + [x], y) == IndexOf(p, y)
    ensures x !in p ==> IndexOf(p + [x], x) == |p|
  {
    if p != [] {
      IndexOfAppend(p[1..], x);
      assert (p + [x])[1..] == p[1..] + [x];
    }
  }

  /** Number of elements the two sequences share, counted with multiplicity:
      the sum over all symbols of min(count in guess, count in code). */
  function CommonCount(guess: seq<Element>, code: seq<Element>): nat
  {
    |multiset(guess) * multiset(code)|
  }

  /** Index of the first occurrence of `x` in `s`, or -1 (Array.prototype.indexOf). */
  function IndexOf(s: seq<Element>, x: Element): (r: int)
    ensures r == -1 <==> x !in s
    ensures r != -1 ==> 0 <= r < |s| && s[r] == x && x !in s[..r]
  {
    if s == [] then -1
    else if s[0] == x then 0
    else
      var k := IndexOf(s[1..], x);
      assert s[1..][..(if k == -1 then 0 else k)] == s[1..(if k == -1 then 1 else k + 1)];
      if k == -1 then -1 else k + 1
  }

  /** Taking the exact matches out of the guess removes their multiset. */
  lemma {:induction false} SplitGuess(guess: seq<Element>, code: seq<Element>)
    ensures multiset(guess) == multiset(LeftGuess(guess, code)) + multiset(Matched(guess, code))
  {
    if guess != [] && code != [] {
      var x, g, c := guess[0], guess[1..], code[1..];
      SplitGuess(g, c);
      assert guess == [x] + g;
      if x == code[0] {
        assert LeftGuess(guess, code) == LeftGuess(g, c);
        assert Matched(guess, code) == [x] + Matched(g, c);
      } else {
        assert LeftGuess(guess, code) == [x] + LeftGuess(g, c);
        assert Matched(guess, code) == Matched(g, c);
      }
    }
  }

  /** Taking the exact matches out of the code removes the same multiset. */
  lemma {:induction false} SplitCode(guess: seq<Element>, code: seq<Element>)
    ensures multiset(code) == multiset(LeftCode(guess, code)) + multiset(Matched(guess, code))
  {
    if guess != [] && code != [] {
      var x, g, c := code[0], guess[1..], code[1..];
      SplitCode(g, c);
      assert code == [x] + c;
      if guess[0] == x {
        assert LeftCode(guess, code) == LeftCode(g, c);
        assert Matched(guess, code) == [x] + Matched(g, c);
      } else {
        assert LeftCode(guess, code) == [x] + LeftCode(g, c);
        assert Matched(guess, code) == Matched(g, c);
      }
    }
  }

  lemma {:induction false} MatchedLength(guess: seq<Element>, code: seq<Element>)
    ensures |Matched(guess, code)| == ExactMatches(guess, code)
  {
    if guess != [] && code != [] {
      MatchedLength(guess[1..], code[1..]);
    }
  }

  /** Adding the same multiset to both sides adds it to their intersection. */
  lemma IntersectionAddBoth(a: multiset<Element>, b: multiset<Element>, m: multiset<Element>)
    ensures (a + m) * (b + m) == a * b + m
  {
    forall x ensures ((a + m) * (b + m))[x] == (a * b + m)[x] {
    }
  }

  /** Adding an element that is absent on one side leaves the intersection. */
  lemma IntersectionAddAbsent(a: multiset<Element>, b: multiset<Element>, x: Element)
    requires x !in b
    ensures (a + multiset{x}) * b == a * b
  {
    forall y ensures ((a + multiset{x}) * b)[y] == (a * b)[y] {
    }
  }

  /** The intersection is no larger than either side. */
  lemma IntersectionBounded(a: multiset<Element>, b: multiset<Element>)
    ensures |a * b| <= |a| && |a * b| <= |b|
  {
    assert a * b <= a && a * b <= b;
    SubMultisetSize(a * b, a);
    SubMultisetSize(a * b, b);
  }

  lemma {:induction false} SubMultisetSize(a: multiset<Element>, b: multiset<Element>)
    requires a <= b
    ensures |a| <= |b|
    decreases |a|
  {
    if a != multiset{} {
      var x :| x in a;
      assert x in b;
      SubMultisetSize(a - multiset{x}, b - multiset{x});
      assert a == (a - multiset{x}) + multiset{x};
      assert b == (b - multiset{x}) + multiset{x};
    }
  }

  /** The common count splits into the exact matches plus what the leftovers
      share. */
  lemma CommonCountSplits(guess: seq<Element>, code: seq<Element>)
    ensures CommonCount(guess, code)
         == ExactMatches(guess, code)
          + |multiset(LeftGuess(guess, code)) * multiset(LeftCode(guess, code))|
  {
    SplitGuess(guess, code);
    SplitCode(guess, code);
    MatchedLength(guess, code);
    IntersectionAddBoth(multiset(LeftGuess(guess, code)), multiset(LeftCode(guess, code)),
                        multiset(Matched(guess, code)));
  }

  /** The feedback a guess receives against a code, as a specification: the
      exact matches are black, the rest of the common elements white. The
      difference is never negative (CommonCountSplits); the guard only keeps
      the type a `nat`. */
  function FeedbackOf(guess: seq<Element>, code: seq<Element>): Feedback
  {
    var white := CommonCount(guess, code) - ExactMatches(guess, code);
    Feedback(ExactMatches(guess, code), if white < 0 then 0 else white)
  }

  /** One step of the backward first pass: position i is either an exact
      match, removed from both copies, or stays. */
  lemma FirstPassStep(guess: seq<Element>, code: seq<Element>, i: nat)
    requires i < |guess|
    ensures var hit := i < |code| && guess[i] == code[i];
      && LeftGuess(guess[i..], Drop(code, i))
         == (if hit then [] else [guess[i]]) + LeftGuess(guess[i + 1..], Drop(code, i + 1))
      && LeftCode(guess[i..], Drop(code, i))
         == (if hit || i >= |code| then [] else [code[i]]) + LeftCode(guess[i + 1..], Drop(code, i + 1))
      && ExactMatches(guess[i..], Drop(code, i))
         == (if hit then 1 else 0) + ExactMatches(guess[i + 1..], Drop(code, i + 1))
  {
    assert guess[i..][0] == guess[i] && guess[i..][1..] == guess[i + 1..];
    if i < |code| {
      assert Drop(code, i)[0] == code[i] && Drop(code, i)[1..] == Drop(code, i + 1);
    }
  }

  /** A copy at index `i` of the first pass, with the leftovers abstracted:
      the untouched prefix `pre`, the current element `x` and the leftovers
      `left` of the scanned part; `step` is what the scan up to `i` leaves,
      `x` itself unless it is an exact match (`hit`). */
  lemma SpliceCopy(i: nat, s: seq<Element>, pre: seq<Element>, x: Element,
                   left: seq<Element>, step: seq<Element>, hit: bool)
    requires |pre| == i && s == pre + [x] + left
    requires step == (if hit then [] else [x]) + left
    ensures |s| == i + 1 + |left| && s[i] == x
    ensures hit ==> s[..i] + s[i + 1..] == pre + step
    ensures !hit ==> s == pre + step
  {
    assert s[..i] == pre && s[i + 1..] == left;
  }

  /** The first pass keeps the copies equal to the untouched prefix followed
      by the leftovers of the part already scanned. */
  lemma FirstPassState(guess: seq<Element>, code: seq<Element>, i: nat,
                       gc: seq<Element>, cc: seq<Element>)
    requires i < |guess|
    requires gc == guess[..i + 1] + LeftGuess(guess[i + 1..], Drop(code, i + 1))
    requires cc == code[..Min(i + 1, |code|)] + LeftCode(guess[i + 1..], Drop(code, i + 1))
    ensures i < |cc| && gc[i] == cc[i] <==> i < |code| && guess[i] == code[i]
    ensures i < |cc| && gc[i] == cc[i] ==>
      && gc[..i] + gc[i + 1..] == guess[..i] + LeftGuess(guess[i..], Drop(code, i))
      && cc[..i] + cc[i + 1..] == code[..Min(i, |code|)] + LeftCode(guess[i..], Drop(code, i))
    ensures !(i < |cc| && gc[i] == cc[i]) ==>
      && gc == guess[..i] + LeftGuess(guess[i..], Drop(code, i))
      && cc == code[..Min(i, |code|)] + LeftCode(guess[i..], Drop(code, i))
  {
    FirstPassStep(guess, code, i);
    var hit := i < |code| && guess[i] == code[i];
    assert guess[..i + 1] == guess[..i] + [guess[i]];
    SpliceCopy(i, gc, guess[..i], guess[i], LeftGuess(guess[i + 1..], Drop(code, i + 1)),
               LeftGuess(guess[i..], Drop(code, i)), hit);
    if i < |code| {
      assert Min(i + 1, |code|) == i + 1 && Min(i, |code|) == i;
      assert code[..i + 1] == code[..i] + [code[i]];
      SpliceCopy(i, cc, code[..i], code[i], LeftCode(guess[i + 1..], Drop(code, i + 1)),
                 LeftCode(guess[i..], Drop(code, i)), hit);
    } else {
      assert Drop(code, i) == [] && Drop(code, i + 1) == [];
    }
  }

  /** One step of the second pass: a leftover guess element either consumes
      a matching code element (one more white) or matches nothing. */
  lemma SecondPassStep(rest: seq<Element>, cc: seq<Element>)
    requires rest != []
    ensures var k := IndexOf(cc, rest[0]);
      k != -1 ==> |multiset(rest) * multiset(cc)|
                  == 1 + |multiset(rest[1..]) * multiset(cc[..k] + cc[k + 1..])|
    ensures IndexOf(cc, rest[0]) == -1 ==>
      |multiset(rest) * multiset(cc)| == |multiset(rest[1..]) * multiset(cc)|
  {
    var x := rest[0];
    assert rest == [x] + rest[1..];
    assert multiset(rest) == multiset(rest[1..]) + multiset{x};
    var k := IndexOf(cc, x);
    if k != -1 {
      var cc' := cc[..k] + cc[k + 1..];
      assert cc == cc[..k] + [x] + cc[k + 1..];
      assert multiset(cc) == multiset(cc') + multiset{x};
      IntersectionAddBoth(multiset(rest[1..]), multiset(cc'), multiset{x});
    } else {
      IntersectionAddAbsent(multiset(rest[1..]), multiset(cc), x);
    }
  }

  /** The state of the first pass once indices j and above are scanned: the
      copies are the untouched prefixes followed by the leftovers of the
      scanned part, and `black` counts its exact matches. */
  ghost predicate Scanned(guess: seq<Element>, code: seq<Element>, j: nat, black: nat,
                          gc: seq<Element>, cc: seq<Element>)
    requires j <= |guess|
  {
    && gc == guess[..j] + LeftGuess(guess[j..], Drop(code, j))
    && cc == code[..Min(j, |code|)] + LeftCode(guess[j..], Drop(code, j))
    && black == ExactMatches(guess[j..], Drop(code, j))
  }

  /** Scanning index j - 1: an exact match there is spliced out of both
      copies and counted; anything else leaves the copies as they are. */
  lemma ScannedStep(guess: seq<Element>, code: seq<Element>, j: nat, black: nat,
                    gc: seq<Element>, cc: seq<Element>)
    requires 0 < j <= |guess| && Scanned(guess, code, j, black, gc, cc)
    ensures var i := j - 1;
            if i < |cc| && gc[i] == cc[i]
            then Scanned(guess, code, i, black + 1, gc[..i] + gc[i + 1..], cc[..i] + cc[i + 1..])
            else Scanned(guess, code, i, black, gc, cc)
  {
    FirstPassStep(guess, code, j - 1);
    FirstPassState(guess, code, j - 1, gc, cc);
  }

  /** First pass of GameUtils.calculateFeedback: scanning the guess from its
      last index down, splice every exact match out of both copies. */
  method SpliceExactMatches(guess: seq<Element>, code: seq<Element>)
    returns (black: nat, guessCopy: seq<Element>, codeCopy: seq<Element>)
    ensures black == ExactMatches(guess, code)
    ensures guessCopy == LeftGuess(guess, code) && codeCopy == LeftCode(guess, code)
  {
    black := 0;
    guessCopy, codeCopy := guess, code;
    var i := |guessCopy| - 1;
    while i >= 0
      invariant -1 <= i < |guess|
      invariant Scanned(guess, code, i + 1, black, guessCopy, codeCopy)
    {
      ScannedStep(guess, code, i + 1, black, guessCopy, codeCopy);
      // an index past the end of the code copy reads `undefined`, never equal
      if i < |codeCopy| && guessCopy[i] == codeCopy[i] {
        black := black + 1;
        guessCopy := guessCopy[..i] + guessCopy[i + 1..];
        codeCopy := codeCopy[..i] + codeCopy[i + 1..];
      }
      i := i - 1;
    }
    assert guess[0..] == guess && Drop(code, 0) == code;
  }

  /** Second pass of GameUtils.calculateFeedback: each leftover guess element
      consumes the first equal element still in the code copy. */
  method CountElementMatches(guessLeft: seq<Element>, codeLeft: seq<Element>)
    returns (white: nat)
    ensures white == |multiset(guessLeft) * multiset(codeLeft)|
  {
    white := 0;
    var codeCopy := codeLeft;
    var j := 0;
    assert guessLeft[0..] == guessLeft;
    while j < |guessLeft|
      invariant 0 <= j <= |guessLeft|
      invariant white + |multiset(guessLeft[j..]) * multiset(codeCopy)|
             == |multiset(guessLeft) * multiset(codeLeft)|
    {
      ghost var rest := guessLeft[j..];
      SecondPassStep(rest, codeCopy);
      assert rest[0] == guessLeft[j] && rest[1..] == guessLeft[j + 1..];
      var index := IndexOf(codeCopy, guessLeft[j]);
      if index != -1 {
        white := white + 1;
        codeCopy := codeCopy[..index] + codeCopy[index + 1..];
      }
      j := j + 1;
    }
    assert guessLeft[j..] == [];
  }

  /** GameUtils.calculateFeedback: copy both arrays, count and splice out the
      exact matches (black), then match each leftover guess element against a
      distinct leftover code element (white). The inputs are values, so they
      are never modified. */
  method CalculateFeedback(guess: seq<Element>, code: seq<Element>) returns (fb: Feedback)
    ensures fb.black == ExactMatches(guess, code)
    ensures fb.black + fb.white == CommonCount(guess, code)
    ensures fb == FeedbackOf(guess, code)
  {
    var black, guessCopy, codeCopy := SpliceExactMatches(guess, code);
    var white := CountElementMatches(guessCopy, codeCopy);
    CommonCountSplits(guess, code);
    fb := Feedback(black, white);
  }

  /** Black plus white never exceeds the length of the code (nor of the guess). */
  lemma FeedbackBounded(guess: seq<Element>, code: seq<Element>)
    ensures FeedbackOf(guess, code).black + FeedbackOf(guess, code).white <= |code|
    ensures FeedbackOf(guess, code).black + FeedbackOf(guess, code).white <= |guess|
  {
    CommonCountSplits(guess, code);
    IntersectionBounded(multiset(guess), multiset(code));
  }

  /** All pegs black exactly when the code is a prefix of the guess; for a
      guess as long as the code, exactly when the guess is the code. This is
      the win test of the game. */
  lemma {:induction false} AllBlackIffEqual(guess: seq<Element>, code: seq<Element>)
    ensures ExactMatches(guess, code) <= Min(|guess|, |code|)
    ensures ExactMatches(guess, code) == |code| <==> |code| <= |guess| && guess[..|code|] == code
  {
    if guess != [] && code != [] {
      AllBlackIffEqual(guess[1..], code[1..]);
      if |code| <= |guess| {
        assert guess[..|code|] == [guess[0]] + guess[1..][..|code| - 1];
      }
    }
  }

  /** The element list of the game (GameUtils.getGameElements). */
  function GameElements(): (r: seq<Element>)
    ensures |r| == 6
    ensures forall i, j :: 0 <= i < j < |r| ==> r[i] != r[j]
  {
    ["Santa", "Present", "Mistletoe", "Star", "Tree", "Snowflake"]
  }

  /** Index picked by `Math.floor(Math.random() * n)` for a draw r in [0, 1). */
  function PickIndex(r: real, n: nat): (k: nat)
    requires 0.0 <= r < 1.0 && n > 0
    ensures k < n
  {
    assert 0.0 <= r * (n as real) < n as real;
    (r * (n as real)).Floor
  }

  /** GameUtils.generateRandomCode: one element per position, each picked by
      its own random draw. */
  method GenerateRandomCode(elements: seq<Element>, codeLength: nat, draws: seq<real>)
    returns (code: seq<Element>)
    requires |elements| > 0
    requires |draws| == codeLength && forall k :: 0 <= k < |draws| ==> 0.0 <= draws[k] < 1.0
    ensures |code| == codeLength
    ensures forall k :: 0 <= k < codeLength ==> code[k] == elements[PickIndex(draws[k], |elements|)]
    ensures forall k :: 0 <= k < codeLength ==> code[k] in elements
  {
    code := [];
    var i := 0;
    while i < codeLength
      invariant 0 <= i <= codeLength && |code| == i
      invariant forall k :: 0 <= k < i ==> code[k] == elements[PickIndex(draws[k], |elements|)]
    {
      code := code + [elements[PickIndex(draws[i], |elements|)]];
      i := i + 1;
    }
  }
}
