/** js/utils/ConstraintSolver.js: the exhaustive hint solver. It enumerates
    every possible secret code once, keeps those that give the recorded
    feedback for every past guess, and reports for each position the
    elements still possible there. */
module ConstraintSolver {
  import opened Wrappers
  import opened GameUtils

  type Code = seq<Element>

  function Pow(b: nat, e: nat): nat
  {
    if e == 0 then 1 else b * Pow(b, e - 1)
  }

  /** `p + c` for every code c of `cs`, in order. */
  function Prefixed(p: Code, cs: seq<Code>): (r: seq<Code>)
    ensures |r| == |cs|
    ensures forall i :: 0 <= i < |cs| ==> r[i] == p + cs[i]
  {
    seq(|cs|, i requires 0 <= i < |cs| => p + cs[i])
  }

  /** For each element of `es` in turn, that element followed by each code
      of `tails`: the order in which the generator's loop emits codes. */
  function PrependEach(es: seq<Element>, tails: seq<Code>): seq<Code>
  {
    if es == [] then []
    else PrependEach(es[..|es| - 1], tails) + Prefixed([es[|es| - 1]], tails)
  }

  /** Every code of length k over `es`, in the generator's order: the first
      position varies slowest. */
  function AllCodes(es: seq<Element>, k: nat): seq<Code>
  {
    if k == 0 then [[]] else PrependEach(es, AllCodes(es, k - 1))
  }

  /** A code of length k whose positions all hold elements of `es`. */
  ghost predicate IsCode(es: seq<Element>, k: nat, c: Code)
  {
    |c| == k && forall i :: 0 <= i < |c| ==> c[i] in es
  }

  lemma {:induction false} PrependEachSize(es: seq<Element>, tails: seq<Code>)
    ensures |PrependEach(es, tails)| == |es| * |tails|
  {
    if es != [] {
      PrependEachSize(es[..|es| - 1], tails);
      assert |es| * |tails| == (|es| - 1) * |tails| + |tails|;
    }
  }

  lemma {:induction false} PrependEachMember(es: seq<Element>, tails: seq<Code>, c: Code)
    ensures c in PrependEach(es, tails) <==> |c| > 0 && c[0] in es && c[1..] in tails
  {
    if es != [] {
      var init := es[..|es| - 1];
      PrependEachMember(init, tails, c);
      assert es == init + [es[|es| - 1]];
      var last := Prefixed([es[|es| - 1]], tails);
      if c in last {
        var i :| 0 <= i < |last| && last[i] == c;
        assert c[1..] == tails[i];
      }
      if |c| > 0 && c[0] == es[|es| - 1] && c[1..] in tails {
        var i :| 0 <= i < |tails| && tails[i] == c[1..];
        assert c == [c[0]] + c[1..];
        assert last[i] == c;
      }
    }
  }

  /** There are |es|^k codes, as the constructor's comment (6^4 = 1296,
      6^5 = 7776) says. */
  lemma {:induction false} AllCodesSize(es: seq<Element>, k: nat)
    ensures |AllCodes(es, k)| == Pow(|es|, k)
  {
    if k > 0 {
      AllCodesSize(es, k - 1);
      PrependEachSize(es, AllCodes(es, k - 1));
    }
  }

  /** The enumeration holds exactly the codes of length k over `es`. */
  lemma {:induction false} AllCodesMember(es: seq<Element>, k: nat, c: Code)
    ensures c in AllCodes(es, k) <==> IsCode(es, k, c)
  {
    if k == 0 {
      assert c in [[]] <==> c == [];
    } else {
      PrependEachMember(es, AllCodes(es, k - 1), c);
      if |c| > 0 {
        AllCodesMember(es, k - 1, c[1..]);
        assert forall i :: 1 <= i < |c| ==> c[i] == c[1..][i - 1];
      }
    }
  }

  /** The codes of `codes` that give feedback `expected` to `guess`, order kept. */
  function Filter(codes: seq<Code>, guess: Code, expected: Feedback): (r: seq<Code>)
    ensures forall c :: c in r ==> c in codes
  {
    if codes == [] then []
    else
      Filter(codes[..|codes| - 1], guess, expected)
      + (if FeedbackOf(guess, codes[|codes| - 1]) == expected then [codes[|codes| - 1]] else [])
  }

  /** `codes` after filtering by the first n guesses of the history. */
  function Remaining(codes: seq<Code>, guesses: seq<Code>, feedbacks: seq<Feedback>, n: nat): (r: seq<Code>)
    requires n <= |guesses| && n <= |feedbacks|
    ensures forall c :: c in r ==> c in codes
  {
    if n == 0 then codes
    else Filter(Remaining(codes, guesses, feedbacks, n - 1), guesses[n - 1], feedbacks[n - 1])
  }

  /** A candidate secret that would have produced the first n recorded feedbacks. */
  ghost predicate Consistent(guesses: seq<Code>, feedbacks: seq<Feedback>, n: nat, c: Code)
    requires n <= |guesses| && n <= |feedbacks|
  {
    forall i :: 0 <= i < n ==> FeedbackOf(guesses[i], c) == feedbacks[i]
  }

  lemma {:induction false} FilterMember(codes: seq<Code>, guess: Code, expected: Feedback, c: Code)
    ensures c in Filter(codes, guess, expected) <==> c in codes && FeedbackOf(guess, c) == expected
  {
    if codes != [] {
      FilterMember(codes[..|codes| - 1], guess, expected, c);
      assert codes == codes[..|codes| - 1] + [codes[|codes| - 1]];
    }
  }

  /** The filtered list holds exactly the candidates consistent with the
      history: no consistent code is ever dropped, no inconsistent one kept. */
  lemma {:induction false} RemainingMember(codes: seq<Code>, guesses: seq<Code>, feedbacks: seq<Feedback>, n: nat, c: Code)
    requires n <= |guesses| && n <= |feedbacks|
    ensures c in Remaining(codes, guesses, feedbacks, n) <==> c in codes && Consistent(guesses, feedbacks, n, c)
  {
    if n > 0 {
      RemainingMember(codes, guesses, feedbacks, n - 1, c);
      FilterMember(Remaining(codes, guesses, feedbacks, n - 1), guesses[n - 1], feedbacks[n - 1], c);
      ConsistentStep(guesses, feedbacks, n, c);
    }
  }

  /** Consistency with n feedbacks is consistency with the first n - 1 and
      with the last. */
  lemma ConsistentStep(guesses: seq<Code>, feedbacks: seq<Feedback>, n: nat, c: Code)
    requires 0 < n <= |guesses| && n <= |feedbacks|
    ensures Consistent(guesses, feedbacks, n, c)
        <==> Consistent(guesses, feedbacks, n - 1, c) && FeedbackOf(guesses[n - 1], c) == feedbacks[n - 1]
  {
  }

  /** The element at position `pos` of each code, in order. */
  function Column(codes: seq<Code>, pos: nat): (r: seq<Element>)
    requires forall c :: c in codes ==> pos < |c|
    ensures |r| == |codes| && forall i :: 0 <= i < |codes| ==> r[i] == codes[i][pos]
  {
    seq(|codes|, i requires 0 <= i < |codes| => codes[i][pos])
  }

  /** The hint table for a list of remaining codes of length k. */
  function ChoicesOf(codes: seq<Code>, k: nat): (r: seq<seq<Element>>)
    requires forall c :: c in codes ==> |c| == k
    ensures |r| == k
  {
    seq(k, pos requires 0 <= pos < k => Dedup(Column(codes, pos)))
  }

  class ConstraintSolver {
    const elements: seq<Element>
    const codeLength: nat
    /** The lazily generated list of all codes (null until first needed). */
    var possibleCodes: Option<seq<Code>>
    var lastGuessCount: nat

    ghost predicate Valid()
      reads this
    {
      possibleCodes.Some? ==>
        && possibleCodes.value == AllCodes(elements, codeLength)
        && forall c :: c in possibleCodes.value ==> |c| == codeLength
    }

    constructor (elements: seq<Element>, codeLength: nat)
      ensures Valid()
      ensures this.elements == elements && this.codeLength == codeLength
      ensures possibleCodes == None && lastGuessCount == 0
    {
      this.elements := elements;
      this.codeLength := codeLength;
      possibleCodes := None;
      lastGuessCount := 0;
    }

    /** The inner `generate(current)` of `generateAllCodes`: every code
        extending `prefix`, in order. */
    method GenerateFrom(prefix: Code) returns (codes: seq<Code>)
      requires |prefix| <= codeLength
      ensures codes == Prefixed(prefix, AllCodes(elements, codeLength - |prefix|))
      decreases codeLength - |prefix|
    {
      if |prefix| == codeLength {
        assert prefix + [] == prefix;
        return [prefix];
      }
      var tails := AllCodes(elements, codeLength - |prefix| - 1);
      codes := [];
      var j := 0;
      while j < |elements|
        invariant 0 <= j <= |elements|
        invariant codes == Prefixed(prefix, PrependEach(elements[..j], tails))
      {
        var more := GenerateFrom(prefix + [elements[j]]);
        assert elements[..j + 1][..j] == elements[..j];
        PrefixedNested(prefix, elements[j], tails);
        PrefixedConcat(prefix, PrependEach(elements[..j], tails), Prefixed([elements[j]], tails));
        codes := codes + more;
        j := j + 1;
      }
      assert elements[..j] == elements;
    }

    /** `generateAllCodes`: every code of length `codeLength`. */
    method GenerateAllCodes() returns (codes: seq<Code>)
      ensures codes == AllCodes(elements, codeLength)
      ensures forall c :: c in codes <==> IsCode(elements, codeLength, c)
      ensures |codes| == Pow(|elements|, codeLength)
    {
      codes := GenerateFrom([]);
      assert forall i :: 0 <= i < |codes| ==> [] + AllCodes(elements, codeLength)[i] == AllCodes(elements, codeLength)[i];
      AllCodesSize(elements, codeLength);
      forall c ensures c in codes <==> IsCode(elements, codeLength, c) {
        AllCodesMember(elements, codeLength, c);
      }
    }

    /** `ensureCodesGenerated`: the code list exists afterwards; an existing
        one is kept. */
    method EnsureCodesGenerated()
      requires Valid()
      modifies this
      ensures Valid()
      ensures possibleCodes == Some(AllCodes(elements, codeLength))
      ensures lastGuessCount == old(lastGuessCount)
    {
      if possibleCodes.None? {
        var codes := GenerateAllCodes();
        possibleCodes := Some(codes);
      }
    }

    /** The filtering loop shared by `getValidChoices`,
        `getPossibleCodesCount` and `getRemainingCodes`. */
    method FilterByHistory(codes: seq<Code>, guesses: seq<Code>, feedbacks: seq<Feedback>)
      returns (remaining: seq<Code>)
      requires |feedbacks| >= |guesses|
      ensures remaining == Remaining(codes, guesses, feedbacks, |guesses|)
    {
      remaining := codes;
      var i := 0;
      while i < |guesses|
        invariant 0 <= i <= |guesses|
        invariant remaining == Remaining(codes, guesses, feedbacks, i)
      {
        remaining := FilterCodes(remaining, guesses[i], feedbacks[i]);
        i := i + 1;
      }
    }

    /** `getValidChoices`: with no history every element at every position;
        otherwise, per position, the distinct elements found there among the
        codes consistent with the history, in order of first appearance. */
    method GetValidChoices(guesses: seq<Code>, feedbacks: seq<Feedback>) returns (choices: seq<seq<Element>>)
      requires Valid() && |feedbacks| >= |guesses|
      modifies this
      ensures Valid() && possibleCodes == Some(AllCodes(elements, codeLength))
      ensures guesses == [] ==> choices == seq(codeLength, _ => elements) && lastGuessCount == old(lastGuessCount)
      ensures guesses != [] ==>
                && lastGuessCount == |guesses|
                && choices == ChoicesOf(Remaining(possibleCodes.value, guesses, feedbacks, |guesses|), codeLength)
    {
      EnsureCodesGenerated();
      if |guesses| == 0 {
        choices := Repeat(elements, codeLength);
        return;
      }
      var remaining := FilterByHistory(possibleCodes.value, guesses, feedbacks);
      if |guesses| != lastGuessCount {
        lastGuessCount := |guesses|;
      }
      choices := BuildChoices(remaining, codeLength);
    }

    /** `getPossibleCodesCount`: how many codes are consistent with the history. */
    method GetPossibleCodesCount(guesses: seq<Code>, feedbacks: seq<Feedback>) returns (count: nat)
      requires Valid() && |feedbacks| >= |guesses|
      modifies this
      ensures Valid() && possibleCodes == Some(AllCodes(elements, codeLength))
      ensures lastGuessCount == old(lastGuessCount)
      ensures count == |Remaining(AllCodes(elements, codeLength), guesses, feedbacks, |guesses|)|
    {
      EnsureCodesGenerated();
      if |guesses| == 0 {
        return |possibleCodes.value|;
      }
      var remaining := FilterByHistory(possibleCodes.value, guesses, feedbacks);
      return |remaining|;
    }

    /** `getRemainingCodes`: the codes consistent with the history, in
        enumeration order. */
    method GetRemainingCodes(guesses: seq<Code>, feedbacks: seq<Feedback>) returns (codes: seq<Code>)
      requires Valid() && |feedbacks| >= |guesses|
      modifies this
      ensures Valid() && possibleCodes == Some(AllCodes(elements, codeLength))
      ensures lastGuessCount == old(lastGuessCount)
      ensures codes == Remaining(AllCodes(elements, codeLength), guesses, feedbacks, |guesses|)
    {
      EnsureCodesGenerated();
      if |guesses| == 0 {
        return possibleCodes.value;
      }
      codes := FilterByHistory(possibleCodes.value, guesses, feedbacks);
    }

    /** `reset`: the guess counter goes back to 0; the code list is kept. */
    method Reset()
      modifies this
      ensures lastGuessCount == 0 && possibleCodes == old(possibleCodes)
    {
      lastGuessCount := 0;
    }
  }

  /** One `filter` call: keep the codes whose feedback to `guess` is `expected`. */
  method FilterCodes(codes: seq<Code>, guess: Code, expected: Feedback) returns (kept: seq<Code>)
    ensures kept == Filter(codes, guess, expected)
  {
    kept := [];
    var i := 0;
    while i < |codes|
      invariant 0 <= i <= |codes|
      invariant kept == Filter(codes[..i], guess, expected)
    {
      var actual := CalculateFeedback(guess, codes[i]);
      assert codes[..i + 1][..i] == codes[..i];
      if actual.black == expected.black && actual.white == expected.white {
        kept := kept + [codes[i]];
      }
      i := i + 1;
    }
    assert codes[..i] == codes;
  }

  /** The no-history answer: the element list once per position. */
  method Repeat(elements: seq<Element>, k: nat) returns (choices: seq<seq<Element>>)
    ensures choices == seq(k, _ => elements)
  {
    choices := [];
    var pos := 0;
    while pos < k
      invariant 0 <= pos <= k
      invariant choices == seq(pos, _ => elements)
    {
      choices := choices + [elements];
      pos := pos + 1;
    }
  }

  /** The per-position loop of `getValidChoices`. */
  method BuildChoices(remaining: seq<Code>, k: nat) returns (choices: seq<seq<Element>>)
    requires forall c :: c in remaining ==> |c| == k
    ensures choices == ChoicesOf(remaining, k)
  {
    choices := [];
    var pos := 0;
    while pos < k
      invariant 0 <= pos <= k
      invariant choices == ChoicesOf(remaining, k)[..pos]
    {
      var column := DistinctAt(remaining, pos);
      assert ChoicesOf(remaining, k)[..pos + 1] == ChoicesOf(remaining, k)[..pos] + [column];
      choices := choices + [column];
      pos := pos + 1;
    }
    assert ChoicesOf(remaining, k)[..k] == ChoicesOf(remaining, k);
  }

  /** The distinct elements at position `pos`, collected through a Set. */
  method DistinctAt(codes: seq<Code>, pos: nat) returns (column: seq<Element>)
    requires forall c :: c in codes ==> pos < |c|
    ensures column == Dedup(Column(codes, pos))
  {
    column := [];
    var i := 0;
    while i < |codes|
      invariant 0 <= i <= |codes|
      invariant column == Dedup(Column(codes[..i], pos))
    {
      assert Column(codes[..i + 1], pos)[..i] == Column(codes[..i], pos);
      if codes[i][pos] !in column {
        column := column + [codes[i][pos]];
      }
      i := i + 1;
    }
    assert codes[..i] == codes;
  }

  lemma PrefixedNested(p: Code, e: Element, tails: seq<Code>)
    ensures Prefixed(p + [e], tails) == Prefixed(p, Prefixed([e], tails))
  {
    assert forall i :: 0 <= i < |tails| ==> (p + [e]) + tails[i] == p + ([e] + tails[i]);
  }

  lemma PrefixedConcat(p: Code, a: seq<Code>, b: seq<Code>)
    ensures Prefixed(p, a + b) == Prefixed(p, a) + Prefixed(p, b)
  {
  }

  /** Every generated code has length k. */
  lemma AllCodesLength(es: seq<Element>, k: nat)
    ensures forall c :: c in AllCodes(es, k) ==> |c| == k
  {
    forall c | c in AllCodes(es, k) ensures |c| == k {
      AllCodesMember(es, k, c);
    }
  }

  /** The hint is sound: an element offered at a position is there in some
      code of length k over the elements that is consistent with every
      recorded feedback. */
  lemma ChoicesSound(es: seq<Element>, k: nat, guesses: seq<Code>, feedbacks: seq<Feedback>,
                     pos: nat, x: Element)
    requires |feedbacks| >= |guesses| && pos < k
    requires forall c :: c in AllCodes(es, k) ==> |c| == k
    requires x in ChoicesOf(Remaining(AllCodes(es, k), guesses, feedbacks, |guesses|), k)[pos]
    ensures exists c :: IsCode(es, k, c) && Consistent(guesses, feedbacks, |guesses|, c) && c[pos] == x
  {
    var all := AllCodes(es, k);
    var rem := Remaining(all, guesses, feedbacks, |guesses|);
    var col := Column(rem, pos);
    assert x in col;
    var i :| 0 <= i < |col| && col[i] == x;
    var c := rem[i];
    RemainingMember(all, guesses, feedbacks, |guesses|, c);
    AllCodesMember(es, k, c);
    assert IsCode(es, k, c) && Consistent(guesses, feedbacks, |guesses|, c) && c[pos] == x;
  }

  /** The hint is complete: an element that some consistent code of length
      k has at a position is offered there. */
  lemma ChoicesComplete(es: seq<Element>, k: nat, guesses: seq<Code>, feedbacks: seq<Feedback>,
                        pos: nat, c: Code)
    requires |feedbacks| >= |guesses| && pos < k
    requires forall c :: c in AllCodes(es, k) ==> |c| == k
    requires IsCode(es, k, c) && Consistent(guesses, feedbacks, |guesses|, c)
    ensures c[pos] in ChoicesOf(Remaining(AllCodes(es, k), guesses, feedbacks, |guesses|), k)[pos]
  {
    var all := AllCodes(es, k);
    var rem := Remaining(all, guesses, feedbacks, |guesses|);
    AllCodesMember(es, k, c);
    RemainingMember(all, guesses, feedbacks, |guesses|, c);
    var i :| 0 <= i < |rem| && rem[i] == c;
    assert Column(rem, pos)[i] == c[pos];
  }

  /** The secret survives: when every recorded feedback was computed against
      `secret`, each of its elements is offered at its position. */
  lemma SecretAlwaysOffered(es: seq<Element>, k: nat, guesses: seq<Code>, secret: Code, pos: nat)
    requires IsCode(es, k, secret) && pos < k
    ensures forall c :: c in AllCodes(es, k) ==> |c| == k
    ensures var feedbacks := seq(|guesses|, i requires 0 <= i < |guesses| => FeedbackOf(guesses[i], secret));
      secret[pos] in ChoicesOf(Remaining(AllCodes(es, k), guesses, feedbacks, |guesses|), k)[pos]
  {
    var feedbacks := seq(|guesses|, i requires 0 <= i < |guesses| => FeedbackOf(guesses[i], secret));
    AllCodesLength(es, k);
    assert Consistent(guesses, feedbacks, |guesses|, secret);
    ChoicesComplete(es, k, guesses, feedbacks, pos, secret);
  }
}
