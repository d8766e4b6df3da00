/** js/utils/LogicDeductionEngine.js: the heuristic hint engine. It keeps,
    per position, the set of elements still considered possible, plus the
    elements proven absent, those proven present, and exact counts learnt
    from all-same guesses. JavaScript Sets iterate in insertion order, and
    the engine depends on that order (`Array.from(set)[0]`, `find`,
    `forEach`), so each Set is modelled as a duplicate-free sequence. */
module LogicDeductionEngine {
  import opened Wrappers
  import opened GameUtils

  /** The engine's fields as one value: candidate sets per position,
      eliminated elements, confirmed elements (in insertion order) and the
      exact counts. */
  datatype EngineState = EngineState(
    possible: seq<seq<Element>>,
    eliminated: set<Element>,
    confirmed: seq<Element>,
    counts: map<Element, nat>)

  ghost predicate Distinct(s: seq<Element>)
  {
    forall i, j :: 0 <= i < j < |s| ==> s[i] != s[j]
  }

  /** Set.delete for every element of `gone`, order of the rest kept. */
  function RemoveAll(s: seq<Element>, gone: set<Element>): (r: seq<Element>)
    ensures forall x :: x in r <==> x in s && x !in gone
  {
    if s == [] then []
    else (if s[0] in gone then [] else [s[0]]) + RemoveAll(s[1..], gone)
  }

  /** Set.add: append unless already present. */
  function Insert(s: seq<Element>, x: Element): (r: seq<Element>)
    ensures forall y :: y in r <==> y in s || y == x
  {
    if x in s then s else s + [x]
  }

  /** `gone` deleted from every position. */
  function DropFromAll(possible: seq<seq<Element>>, gone: set<Element>): (r: seq<seq<Element>>)
    ensures |r| == |possible|
    ensures forall j :: 0 <= j < |r| ==> r[j] == RemoveAll(possible[j], gone)
  {
    seq(|possible|, j requires 0 <= j < |possible| => RemoveAll(possible[j], gone))
  }

  /** The state `reset` establishes. */
  function Initial(codeLength: nat, allElements: seq<Element>): EngineState
  {
    EngineState(seq(codeLength, _ => Dedup(allElements)), {}, [], map[])
  }

  /** `getConfirmedCount`: the recorded exact count, or 0. */
  function ConfirmedCount(counts: map<Element, nat>, e: Element): nat
  {
    if e in counts then counts[e] else 0
  }

  /** Occurrences of `e` in the guess (`elementCounts[e]`). */
  function CountIn(guess: seq<Element>, e: Element): nat
  {
    multiset(guess)[e]
  }

  // ---------------------------------------------------------------------
  // analyzeGuess, rule by rule

  /** Rule 1: an all-same guess with no feedback eliminates its element. */
  function Rule1(st: EngineState, guess: seq<Element>, total: nat): (r: EngineState)
    ensures r.confirmed == st.confirmed && r.counts == st.counts && Shrinks(st, r)
  {
    var u := Dedup(guess);
    if |u| == 1 && total == 0
    then st.(eliminated := st.eliminated + {u[0]}, possible := DropFromAll(st.possible, {u[0]}))
    else st
  }

  /** Feedback that the confirmed elements of `others` other than `e`
      account for: the smaller of their count in the guess and their
      confirmed count. */
  function ExpectedFromOthers(confirmed: seq<Element>, counts: map<Element, nat>, guess: seq<Element>,
                              others: seq<Element>, e: Element): nat
  {
    if others == [] then 0
    else
      var o := others[|others| - 1];
      ExpectedFromOthers(confirmed, counts, guess, others[..|others| - 1], e)
      + (if o != e && o in confirmed then Min(CountIn(guess, o), ConfirmedCount(counts, o)) else 0)
  }

  /** Whether Rule 2 eliminates element `e` of the guess. */
  predicate Rule2Eliminates(st: EngineState, guess: seq<Element>, total: nat, e: Element)
  {
    ExpectedFromOthers(st.confirmed, st.counts, guess, Dedup(guess), e) >= total && e !in st.confirmed
  }

  /** The elements among `es` that Rule 2 eliminates. */
  function Rule2Targets(st: EngineState, guess: seq<Element>, total: nat, es: seq<Element>): set<Element>
  {
    set e | e in es && Rule2Eliminates(st, guess, total, e)
  }

  /** The state after Rule 2 has considered the elements `es`. */
  function Rule2After(st: EngineState, guess: seq<Element>, total: nat, es: seq<Element>): EngineState
  {
    var t := Rule2Targets(st, guess, total, es);
    st.(eliminated := st.eliminated + t, possible := DropFromAll(st.possible, t))
  }

  /** Before Rule 2 has considered any element, nothing has changed. */
  lemma Rule2AfterNothing(st: EngineState, guess: seq<Element>, total: nat)
    ensures Rule2After(st, guess, total, []) == st
  {
    DropNothing(st.possible);
    assert Rule2Targets(st, guess, total, []) == {};
  }

  /** Rule 2: in a guess of several distinct elements, each unconfirmed
      element whose feedback the confirmed others already account for is
      eliminated. */
  function Rule2(st: EngineState, guess: seq<Element>, total: nat): (r: EngineState)
    ensures r.confirmed == st.confirmed && r.counts == st.counts && Shrinks(st, r)
  {
    var u := Dedup(guess);
    if |u| > 1
    then Rule2After(st, guess, total, u)
    else st
  }

  /** Rule 3: an all-same guess with feedback confirms its element with an
      exact count equal to the total feedback. */
  function Rule3(st: EngineState, guess: seq<Element>, total: nat): (r: EngineState)
    ensures r.possible == st.possible && r.eliminated == st.eliminated
    ensures forall x :: x in st.confirmed ==> x in r.confirmed
    ensures total == 0 ==> r == st
  {
    var u := Dedup(guess);
    if |u| == 1 && total > 0
    then st.(confirmed := Insert(st.confirmed, u[0]), counts := st.counts[u[0] := total])
    else st
  }

  // ---------------------------------------------------------------------
  // performAdvancedDeductions

  /** `e` deleted from every position but `i`. */
  function RemoveExcept(possible: seq<seq<Element>>, e: Element, i: nat): (r: seq<seq<Element>>)
    ensures |r| == |possible|
    ensures forall j :: 0 <= j < |r| ==> r[j] == if j != i then RemoveAll(possible[j], {e}) else possible[j]
  {
    seq(|possible|, j requires 0 <= j < |possible| =>
                      if j != i then RemoveAll(possible[j], {e}) else possible[j])
  }

  /** Deduction 1 at position i: a singleton's element not yet confirmed is
      confirmed and deleted from every other position. */
  function Deduce1At(st: EngineState, i: nat): (r: EngineState)
    requires i < |st.possible|
    ensures |r.possible| == |st.possible|
  {
    var p := st.possible[i];
    if |p| == 1 && p[0] !in st.confirmed
    then st.(confirmed := st.confirmed + [p[0]], possible := RemoveExcept(st.possible, p[0], i))
    else st
  }

  /** Deduction 1 over positions i, i + 1, ..., in order. */
  function Deduce1From(st: EngineState, i: nat): (r: EngineState)
    requires i <= |st.possible|
    ensures |r.possible| == |st.possible|
    ensures r.eliminated == st.eliminated && r.counts == st.counts
    decreases |st.possible| - i
  {
    if i == |st.possible| then st else Deduce1From(Deduce1At(st, i), i + 1)
  }

  /** Indices i < n whose candidate set contains `e`, ascending. */
  function PositionsOf(possible: seq<seq<Element>>, e: Element, n: nat): (r: seq<nat>)
    requires n <= |possible|
    ensures forall k :: 0 <= k < |r| ==> r[k] < n && e in possible[r[k]]
    ensures forall i :: 0 <= i < n && e in possible[i] ==> i in r
    ensures forall a, b :: 0 <= a < b < |r| ==> r[a] < r[b]
  {
    if n == 0 then []
    else PositionsOf(possible, e, n - 1) + (if e in possible[n - 1] then [n - 1] else [])
  }

  /** Deduction 2 for one confirmed element: when exactly one position can
      hold it, that position's set becomes just that element. */
  function Deduce2For(st: EngineState, e: Element): (r: EngineState)
    ensures |r.possible| == |st.possible|
  {
    var ps := PositionsOf(st.possible, e, |st.possible|);
    if |ps| == 1 then st.(possible := st.possible[ps[0] := [e]]) else st
  }

  /** Deduction 2 for the elements `es`, in order. */
  function Deduce2Over(st: EngineState, es: seq<Element>): (r: EngineState)
    ensures |r.possible| == |st.possible|
    ensures r.eliminated == st.eliminated && r.counts == st.counts && r.confirmed == st.confirmed
  {
    if es == [] then st else Deduce2For(Deduce2Over(st, es[..|es| - 1]), es[|es| - 1])
  }

  /** Indices i < n whose candidate set is a singleton, ascending. */
  function SingletonPositions(possible: seq<seq<Element>>, n: nat): (r: seq<nat>)
    requires n <= |possible|
    ensures forall k :: 0 <= k < |r| ==> r[k] < n && |possible[r[k]]| == 1
    ensures forall i :: 0 <= i < n && |possible[i]| == 1 ==> i in r
    ensures forall a, b :: 0 <= a < b < |r| ==> r[a] < r[b]
  {
    if n == 0 then []
    else SingletonPositions(possible, n - 1) + (if |possible[n - 1]| == 1 then [n - 1] else [])
  }

  /** `findIndex(set => set.size > 1)` from position `from` on. */
  function FirstUndeduced(possible: seq<seq<Element>>, from: nat): (r: Option<nat>)
    requires from <= |possible|
    ensures r.Some? ==> from <= r.value < |possible| && |possible[r.value]| > 1
    ensures r.Some? ==> forall i :: from <= i < r.value ==> |possible[i]| <= 1
    ensures r.None? ==> forall i :: from <= i < |possible| ==> |possible[i]| <= 1
    decreases |possible| - from
  {
    if from == |possible| then None
    else if |possible[from]| > 1 then Some(from)
    else FirstUndeduced(possible, from + 1)
  }

  /** The elements of the singleton positions `ds`. */
  function ElementsAt(possible: seq<seq<Element>>, ds: seq<nat>): set<Element>
    requires forall k :: 0 <= k < |ds| ==> ds[k] < |possible| && |possible[ds[k]]| == 1
  {
    set k | 0 <= k < |ds| :: possible[ds[k]][0]
  }

  /** `find(el => !deducedElements.has(el))`. */
  function FirstNotIn(s: seq<Element>, known: set<Element>): (r: Option<Element>)
    ensures r.Some? ==> r.value in s && r.value !in known
    ensures r.None? ==> forall x :: x in s ==> x in known
  {
    if s == [] then None
    else if s[0] !in known then Some(s[0])
    else FirstNotIn(s[1..], known)
  }

  /** Deduction 3: when all positions but one are singletons, the first
      element of the remaining position that no singleton holds is put
      there (if it is a non-empty string) and confirmed. */
  function Deduce3(st: EngineState): (r: EngineState)
    ensures |r.possible| == |st.possible|
  {
    var n := |st.possible|;
    var deduced := SingletonPositions(st.possible, n);
    if |deduced| == n - 1 then
      match FirstUndeduced(st.possible, 0)
      case None => st
      case Some(u) =>
        var missing := FirstNotIn(st.possible[u], ElementsAt(st.possible, deduced));
        if missing.Some? && missing.value != ""
        then st.(possible := st.possible[u := [missing.value]], confirmed := Insert(st.confirmed, missing.value))
        else st
    else st
  }

  /** `performAdvancedDeductions`. */
  function Advanced(st: EngineState): (r: EngineState)
    ensures |r.possible| == |st.possible|
    ensures r.eliminated == st.eliminated && r.counts == st.counts
  {
    var s1 := Deduce1From(st, 0);
    Deduce3(Deduce2Over(s1, s1.confirmed))
  }

  /** `analyzeGuess`: rules 1, 2 and 3, then the advanced deductions. */
  function Analyze(st: EngineState, guess: seq<Element>, fb: Feedback): (r: EngineState)
    ensures |r.possible| == |st.possible| && st.eliminated <= r.eliminated
  {
    var total := fb.black + fb.white;
    Advanced(Rule3(Rule2(Rule1(st, guess, total), guess, total), guess, total))
  }

  // ---------------------------------------------------------------------
  // Invariants

  /** The engine's well-formedness: one candidate set per position, each
      without duplicates and drawn from the element list; confirmed has no
      duplicates; and no eliminated element is a candidate anywhere. */
  ghost predicate Wf(st: EngineState, codeLength: nat, allElements: seq<Element>)
  {
    && |st.possible| == codeLength
    && (forall i :: 0 <= i < codeLength ==> Distinct(st.possible[i]))
    && (forall i, x :: 0 <= i < codeLength && x in st.possible[i] ==> x in allElements)
    && Distinct(st.confirmed)
    && (forall i, x :: 0 <= i < codeLength && x in st.eliminated ==> x !in st.possible[i])
  }

  /** `st'` is a step forward from `st`: every candidate set has shrunk (or
      stayed), and eliminated and confirmed elements have been kept. */
  ghost predicate Shrinks(st: EngineState, st': EngineState)
  {
    && |st'.possible| == |st.possible|
    && (forall i, x :: 0 <= i < |st.possible| && x in st'.possible[i] ==> x in st.possible[i])
    && st.eliminated <= st'.eliminated
    && (forall x :: x in st.confirmed ==> x in st'.confirmed)
  }

  lemma {:induction false} RemoveAllDistinct(s: seq<Element>, gone: set<Element>)
    requires Distinct(s)
    ensures Distinct(RemoveAll(s, gone))
  {
    if s != [] {
      RemoveAllDistinct(s[1..], gone);
    }
  }

  lemma InitialWf(codeLength: nat, allElements: seq<Element>)
    ensures Wf(Initial(codeLength, allElements), codeLength, allElements)
  {
  }

  /** Rules 1 and 2 remove what they eliminate from every position. */
  lemma EliminationKeepsWf(st: EngineState, k: nat, all: seq<Element>, gone: set<Element>)
    requires Wf(st, k, all)
    ensures Wf(st.(eliminated := st.eliminated + gone, possible := DropFromAll(st.possible, gone)), k, all)
    ensures Shrinks(st, st.(eliminated := st.eliminated + gone, possible := DropFromAll(st.possible, gone)))
  {
    forall i | 0 <= i < k ensures Distinct(RemoveAll(st.possible[i], gone)) {
      RemoveAllDistinct(st.possible[i], gone);
    }
  }

  /** Shrinking is transitive. */
  lemma ShrinksTrans(a: EngineState, b: EngineState, c: EngineState)
    requires Shrinks(a, b) && Shrinks(b, c)
    ensures Shrinks(a, c)
  {
  }

  /** Two well-formed steps make one. */
  lemma StepsCompose(a: EngineState, b: EngineState, c: EngineState, k: nat, all: seq<Element>)
    requires Wf(b, k, all) && Shrinks(a, b) && Wf(c, k, all) && Shrinks(b, c)
    ensures Wf(c, k, all) && Shrinks(a, c)
  {
    ShrinksTrans(a, b, c);
  }

  lemma Rule1KeepsWf(st: EngineState, k: nat, all: seq<Element>, guess: seq<Element>, total: nat)
    requires Wf(st, k, all)
    ensures Wf(Rule1(st, guess, total), k, all) && Shrinks(st, Rule1(st, guess, total))
  {
    var u := Dedup(guess);
    if |u| == 1 && total == 0 {
      EliminationKeepsWf(st, k, all, {u[0]});
    }
  }

  lemma Rule2KeepsWf(st: EngineState, k: nat, all: seq<Element>, guess: seq<Element>, total: nat)
    requires Wf(st, k, all)
    ensures Wf(Rule2(st, guess, total), k, all) && Shrinks(st, Rule2(st, guess, total))
  {
    var u := Dedup(guess);
    if |u| > 1 {
      EliminationKeepsWf(st, k, all, Rule2Targets(st, guess, total, u));
    }
  }

  lemma Rule3KeepsWf(st: EngineState, k: nat, all: seq<Element>, guess: seq<Element>, total: nat)
    requires Wf(st, k, all)
    ensures Wf(Rule3(st, guess, total), k, all) && Shrinks(st, Rule3(st, guess, total))
  {
  }

  lemma Deduce1AtKeepsWf(st: EngineState, k: nat, all: seq<Element>, i: nat)
    requires Wf(st, k, all) && i < k
    ensures Wf(Deduce1At(st, i), k, all) && Shrinks(st, Deduce1At(st, i))
  {
    var p := st.possible[i];
    if |p| == 1 && p[0] !in st.confirmed {
      forall j | 0 <= j < k ensures Distinct(RemoveAll(st.possible[j], {p[0]})) {
        RemoveAllDistinct(st.possible[j], {p[0]});
      }
    }
  }

  lemma {:induction false} Deduce1FromKeepsWf(st: EngineState, k: nat, all: seq<Element>, i: nat)
    requires Wf(st, k, all) && i <= k
    ensures Wf(Deduce1From(st, i), k, all) && Shrinks(st, Deduce1From(st, i))
    decreases k - i
  {
    if i < k {
      var next := Deduce1At(st, i);
      Deduce1AtKeepsWf(st, k, all, i);
      Deduce1FromKeepsWf(next, k, all, i + 1);
      StepsCompose(st, next, Deduce1From(next, i + 1), k, all);
    }
  }

  lemma Deduce2ForKeepsWf(st: EngineState, k: nat, all: seq<Element>, e: Element)
    requires Wf(st, k, all)
    ensures Wf(Deduce2For(st, e), k, all) && Shrinks(st, Deduce2For(st, e))
  {
    var ps := PositionsOf(st.possible, e, |st.possible|);
    if |ps| == 1 {
      assert e in st.possible[ps[0]];
    }
  }

  lemma {:induction false} Deduce2OverKeepsWf(st: EngineState, k: nat, all: seq<Element>, es: seq<Element>)
    requires Wf(st, k, all)
    ensures Wf(Deduce2Over(st, es), k, all) && Shrinks(st, Deduce2Over(st, es))
  {
    if es != [] {
      var prev := Deduce2Over(st, es[..|es| - 1]);
      Deduce2OverKeepsWf(st, k, all, es[..|es| - 1]);
      Deduce2ForKeepsWf(prev, k, all, es[|es| - 1]);
      StepsCompose(st, prev, Deduce2For(prev, es[|es| - 1]), k, all);
    }
  }

  lemma Deduce3KeepsWf(st: EngineState, k: nat, all: seq<Element>)
    requires Wf(st, k, all)
    ensures Wf(Deduce3(st), k, all) && Shrinks(st, Deduce3(st))
  {
  }

  /** `analyzeGuess` keeps the engine well-formed, in particular keeps every
      eliminated element out of every candidate set; candidate sets only
      shrink; and nothing eliminated or confirmed is ever forgotten. */
  lemma AnalyzeKeepsWf(st: EngineState, k: nat, all: seq<Element>, guess: seq<Element>, fb: Feedback)
    requires Wf(st, k, all)
    ensures Wf(Analyze(st, guess, fb), k, all)
    ensures Shrinks(st, Analyze(st, guess, fb))
  {
    var total := fb.black + fb.white;
    var s3 := Rule3(Rule2(Rule1(st, guess, total), guess, total), guess, total);
    RulesKeepWf(st, k, all, guess, total);
    AdvancedKeepsWf(s3, k, all);
    assert Analyze(st, guess, fb) == Advanced(s3);
    StepsCompose(st, s3, Advanced(s3), k, all);
  }

  /** Rules 1, 2 and 3 in a row keep the engine well-formed. */
  lemma RulesKeepWf(st: EngineState, k: nat, all: seq<Element>, guess: seq<Element>, total: nat)
    requires Wf(st, k, all)
    ensures Wf(Rule3(Rule2(Rule1(st, guess, total), guess, total), guess, total), k, all)
    ensures Shrinks(st, Rule3(Rule2(Rule1(st, guess, total), guess, total), guess, total))
  {
    var s1 := Rule1(st, guess, total);
    Rule1KeepsWf(st, k, all, guess, total);
    var s2 := Rule2(s1, guess, total);
    Rule2KeepsWf(s1, k, all, guess, total);
    StepsCompose(st, s1, s2, k, all);
    Rule3KeepsWf(s2, k, all, guess, total);
    StepsCompose(st, s2, Rule3(s2, guess, total), k, all);
  }

  lemma AdvancedKeepsWf(st: EngineState, k: nat, all: seq<Element>)
    requires Wf(st, k, all)
    ensures Wf(Advanced(st), k, all) && Shrinks(st, Advanced(st))
  {
    var s1 := Deduce1From(st, 0);
    Deduce1FromKeepsWf(st, k, all, 0);
    var s2 := Deduce2Over(s1, s1.confirmed);
    Deduce2OverKeepsWf(s1, k, all, s1.confirmed);
    ShrinksTrans(st, s1, s2);
    Deduce3KeepsWf(s2, k, all);
    ShrinksTrans(st, s2, Deduce3(s2));
  }

  // ---------------------------------------------------------------------
  // What each rule achieves

  /** An all-same guess (one distinct element) is that element repeated. */
  lemma SingleDistinct(guess: seq<Element>)
    requires |Dedup(guess)| == 1
    ensures guess != [] && Dedup(guess) == [guess[0]]
  {
    assert Dedup(guess)[0] in guess;
    assert guess[0] in Dedup(guess);
  }

  /** Rule 1: an all-same guess with zero total feedback leaves its element
      eliminated. */
  lemma Rule1Eliminates(st: EngineState, k: nat, all: seq<Element>, guess: seq<Element>, fb: Feedback)
    requires Wf(st, k, all)
    requires |Dedup(guess)| == 1 && fb.black + fb.white == 0
    ensures guess[0] in Analyze(st, guess, fb).eliminated
    ensures forall i :: 0 <= i < k ==> guess[0] !in Analyze(st, guess, fb).possible[i]
  {
    SingleDistinct(guess);
    var s1 := Rule1(st, guess, 0);
    assert guess[0] in s1.eliminated;
    Rule1KeepsWf(st, k, all, guess, 0);
    Rule2KeepsWf(s1, k, all, guess, 0);
    EliminatedKept(Rule2(s1, guess, 0), k, all, guess, 0, guess[0]);
  }

  /** A guess of several distinct elements with zero total feedback
      eliminates every element in it that was not already confirmed. */
  lemma ZeroFeedbackEliminates(st: EngineState, k: nat, all: seq<Element>, guess: seq<Element>, fb: Feedback, e: Element)
    requires Wf(st, k, all)
    requires |Dedup(guess)| > 1 && fb.black + fb.white == 0
    requires e in guess && e !in st.confirmed
    ensures e in Analyze(st, guess, fb).eliminated
    ensures forall i :: 0 <= i < k ==> e !in Analyze(st, guess, fb).possible[i]
  {
    AnalyzeZero(st, guess, fb);
    Rule2ZeroEliminates(st, guess, e);
    Rule2KeepsWf(st, k, all, guess, 0);
    EliminatedKept(Rule2(st, guess, 0), k, all, guess, 0, e);
  }

  /** Rule 1 leaves a guess of several distinct elements alone. */
  lemma {:induction false} AnalyzeZero(st: EngineState, guess: seq<Element>, fb: Feedback)
    requires |Dedup(guess)| > 1 && fb.black + fb.white == 0
    ensures Analyze(st, guess, fb) == Advanced(Rule3(Rule2(st, guess, 0), guess, 0))
  {
    Rule1Idle(st, guess, 0);
  }

  /** Rule 1 changes nothing unless the guess is all one element and scores
      no peg. */
  lemma {:induction false} Rule1Idle(st: EngineState, guess: seq<Element>, total: nat)
    requires |Dedup(guess)| != 1 || total != 0
    ensures Rule1(st, guess, total) == st
  {
  }

  lemma Rule2ZeroEliminates(st: EngineState, guess: seq<Element>, e: Element)
    requires |Dedup(guess)| > 1 && e in guess && e !in st.confirmed
    ensures e in Rule2(st, guess, 0).eliminated
  {
    assert e in Rule2Targets(st, guess, 0, Dedup(guess));
  }

  /** An element eliminated before Rule 3 stays eliminated, and out of
      every position, through Rule 3 and the advanced deductions. */
  lemma EliminatedKept(s2: EngineState, k: nat, all: seq<Element>, guess: seq<Element>, total: nat, e: Element)
    requires Wf(s2, k, all) && e in s2.eliminated
    ensures e in Advanced(Rule3(s2, guess, total)).eliminated
    ensures forall i :: 0 <= i < k ==> e !in Advanced(Rule3(s2, guess, total)).possible[i]
  {
    Rule3KeepsWf(s2, k, all, guess, total);
    AdvancedKeepsWf(Rule3(s2, guess, total), k, all);
  }

  /** Rule 3: an all-same guess with positive feedback confirms its element,
      with exact count black + white. */
  lemma {:induction false} Rule3Confirms(st: EngineState, k: nat, all: seq<Element>, guess: seq<Element>, fb: Feedback)
    requires Wf(st, k, all)
    requires |Dedup(guess)| == 1 && fb.black + fb.white > 0
    ensures guess[0] in Analyze(st, guess, fb).confirmed
    ensures ConfirmedCount(Analyze(st, guess, fb).counts, guess[0]) == fb.black + fb.white
  {
    SingleDistinct(guess);
    var total := fb.black + fb.white;
    var s2 := Rule2(Rule1(st, guess, total), guess, total);
    var s3 := Rule3(s2, guess, total);
    Rule1KeepsWf(st, k, all, guess, total);
    Rule2KeepsWf(Rule1(st, guess, total), k, all, guess, total);
    Rule3KeepsWf(s2, k, all, guess, total);
    AdvancedKeepsWf(s3, k, all);
  }

  /** Deduction 1 at a singleton position whose element is unconfirmed:
      the element becomes confirmed and no other position keeps it. */
  lemma Deduce1AtRemoves(st: EngineState, i: nat)
    requires i < |st.possible| && |st.possible[i]| == 1 && st.possible[i][0] !in st.confirmed
    ensures st.possible[i][0] in Deduce1At(st, i).confirmed
    ensures forall j :: 0 <= j < |st.possible| && j != i ==> st.possible[i][0] !in Deduce1At(st, i).possible[j]
  {
  }

  /** After Deduction 1 from position i on, every element that was alone at
      a position from i on is confirmed, and nothing confirmed before is
      lost. A later singleton emptied by an earlier step held the element
      that step confirmed. */
  lemma {:induction false} Deduce1Confirms(st: EngineState, i: nat)
    requires i <= |st.possible|
    ensures forall x :: x in st.confirmed ==> x in Deduce1From(st, i).confirmed
    ensures forall j :: i <= j < |st.possible| && |st.possible[j]| == 1 ==> st.possible[j][0] in Deduce1From(st, i).confirmed
    decreases |st.possible| - i
  {
    if i < |st.possible| {
      var next := Deduce1At(st, i);
      Deduce1Confirms(next, i + 1);
      var p := st.possible[i];
      forall j | i < j < |st.possible| && |st.possible[j]| == 1
        ensures st.possible[j][0] in Deduce1From(next, i + 1).confirmed
      {
        if |p| == 1 && p[0] !in st.confirmed && st.possible[j][0] != p[0] {
          assert st.possible[j][1..] == [];
          assert RemoveAll(st.possible[j], {p[0]}) == st.possible[j];
        }
      }
    }
  }

  /** Deduction 1 does not allow for repeated elements. With two positions,
      elements A and B and the secret A A, the guess B B scores no pegs;
      Rule 1 then leaves A alone at both positions, and Deduction 1 confirms
      A at position 0 and deletes it from position 1, so position 1 is left
      with no candidate although the secret has A there. */
  lemma RepeatedElementLost()
    ensures FeedbackOf(["B", "B"], ["A", "A"]) == Feedback(0, 0)
    ensures Analyze(Initial(2, ["A", "B"]), ["B", "B"], Feedback(0, 0)).possible == [["A"], []]
  {
    RepeatedFeedback();
    var s3 := RepeatedRules();
    RepeatedAdvanced(s3);
  }

  lemma RepeatedFeedback()
    ensures FeedbackOf(["B", "B"], ["A", "A"]) == Feedback(0, 0)
  {
    var a, b := "A", "B";
    assert multiset([b, b]) * multiset([a, a]) == multiset{};
    assert ExactMatches([b], [a]) == 0 by {
      assert [b][1..] == [] && [a][1..] == [];
    }
    assert [b, b][1..] == [b] && [a, a][1..] == [a];
  }

  /** Rules 1 to 3 of the scenario above: B is eliminated everywhere. */
  lemma RepeatedRules() returns (s3: EngineState)
    ensures s3 == EngineState([["A"], ["A"]], {"B"}, [], map[])
    ensures s3 == Rule3(Rule2(Rule1(Initial(2, ["A", "B"]), ["B", "B"], 0), ["B", "B"], 0), ["B", "B"], 0)
  {
    RepeatedRule1();
    RepeatedDedup();
    s3 := EngineState([["A"], ["A"]], {"B"}, [], map[]);
  }

  /** Rule 1 of the scenario above. */
  lemma RepeatedRule1()
    ensures Rule1(Initial(2, ["A", "B"]), ["B", "B"], 0) == EngineState([["A"], ["A"]], {"B"}, [], map[])
  {
    RepeatedRemove();
    var st0 := Initial(2, ["A", "B"]);
    InitialAB();
    RuleOneOnBB(st0);
    assert DropFromAll(st0.possible, {"B"}) == [["A"], ["A"]];
  }

  /** The scenario's starting state: both positions may hold A or B. */
  lemma InitialAB()
    ensures Initial(2, ["A", "B"]) == EngineState([["A", "B"], ["A", "B"]], {}, [], map[])
  {
    RepeatedDedup();
  }

  /** Rule 1 on the guess B B with no feedback, from any state. */
  lemma RuleOneOnBB(st: EngineState)
    ensures Rule1(st, ["B", "B"], 0) == st.(eliminated := st.eliminated + {"B"}, possible := DropFromAll(st.possible, {"B"}))
  {
    RepeatedDedup();
  }

  lemma RepeatedDedup()
    ensures Dedup(["A", "B"]) == ["A", "B"] && Dedup(["B", "B"]) == ["B"]
  {
    var a, b := "A", "B";
    assert a != b by { assert a[0] != b[0]; }
    assert [a, b][..1] == [a];
    assert Dedup([a]) == [a];
    assert [b, b][..1] == [b];
    assert Dedup([b]) == [b];
  }

  lemma RepeatedRemove()
    ensures RemoveAll(["A", "B"], {"B"}) == ["A"]
  {
    var a, b := "A", "B";
    assert a != b by { assert a[0] != b[0]; }
    assert [a, b][1..] == [b];
    assert RemoveAll([b], {b}) == [];
  }

  /** The advanced deductions of the scenario above. */
  lemma RepeatedAdvanced(s3: EngineState)
    requires s3 == EngineState([["A"], ["A"]], {"B"}, [], map[])
    ensures Advanced(s3).possible == [["A"], []]
  {
    var a := "A";
    assert RemoveAll([a], {a}) == [];
    var d0 := Deduce1At(s3, 0);
    assert d0.possible == [[a], []] && d0.confirmed == [a];
    assert Deduce1At(d0, 1) == d0;
    var d1 := Deduce1From(s3, 0);
    assert d1 == Deduce1From(d0, 1) == Deduce1From(d0, 2) == d0;
    var d2 := RepeatedDeduce2(d1);
    RepeatedDeduce3(d2);
  }

  lemma RepeatedDeduce2(d1: EngineState) returns (d2: EngineState)
    requires d1 == EngineState([["A"], []], {"B"}, ["A"], map[])
    ensures d2 == Deduce2Over(d1, d1.confirmed) && d2 == d1
  {
    var a := "A";
    assert PositionsOf(d1.possible, a, 1) == [0];
    assert PositionsOf(d1.possible, a, 2) == [0];
    assert d1.confirmed[..0] == [];
    assert Deduce2Over(d1, [a]) == Deduce2For(d1, a);
    d2 := d1;
  }

  lemma RepeatedDeduce3(d2: EngineState)
    requires d2 == EngineState([["A"], []], {"B"}, ["A"], map[])
    ensures Deduce3(d2).possible == [["A"], []]
  {
    assert SingletonPositions(d2.possible, 1) == [0];
    assert SingletonPositions(d2.possible, 2) == [0];
    assert FirstUndeduced(d2.possible, 0) == None;
  }

  // ---------------------------------------------------------------------
  // Steps of the imperative engine

  lemma {:induction false} RemoveAllTwice(s: seq<Element>, gone: set<Element>, x: Element)
    ensures RemoveAll(RemoveAll(s, gone), {x}) == RemoveAll(s, gone + {x})
  {
    if s != [] {
      RemoveAllTwice(s[1..], gone, x);
      var rest := RemoveAll(s[1..], gone);
      if s[0] in gone {
        assert RemoveAll(s, gone) == rest;
        assert RemoveAll(s, gone + {x}) == RemoveAll(s[1..], gone + {x});
      } else {
        assert RemoveAll(s, gone) == [s[0]] + rest;
        assert ([s[0]] + rest)[1..] == rest;
      }
    }
  }

  lemma DropFromAllTwice(possible: seq<seq<Element>>, gone: set<Element>, x: Element)
    ensures DropFromAll(DropFromAll(possible, gone), {x}) == DropFromAll(possible, gone + {x})
  {
    forall j | 0 <= j < |possible|
      ensures DropFromAll(DropFromAll(possible, gone), {x})[j] == DropFromAll(possible, gone + {x})[j]
    {
      RemoveAllTwice(possible[j], gone, x);
    }
  }

  lemma DropNothing(possible: seq<seq<Element>>)
    ensures DropFromAll(possible, {}) == possible
  {
    forall j | 0 <= j < |possible|
      ensures DropFromAll(possible, {})[j] == possible[j]
    {
      RemoveNothing(possible[j]);
    }
  }

  lemma {:induction false} RemoveNothing(s: seq<Element>)
    ensures RemoveAll(s, {}) == s
  {
    if s != [] {
      RemoveNothing(s[1..]);
      assert s == [s[0]] + s[1..];
    }
  }

  /** `new Set(xs)`: the elements of `xs` without repeats, in first-seen order. */
  method NewSet(xs: seq<Element>) returns (r: seq<Element>)
    ensures r == Dedup(xs)
  {
    r := [];
    var i := 0;
    while i < |xs|
      invariant 0 <= i <= |xs|
      invariant r == Dedup(xs[..i])
    {
      assert xs[..i + 1][..i] == xs[..i];
      if xs[i] !in r {
        r := r + [xs[i]];
      }
      i := i + 1;
    }
    assert xs[..i] == xs;
  }

  /** After the first `i` entries of the guess: `unique` lists the distinct
      elements seen, in first-seen order, and `counts` holds exactly those,
      each with its number of occurrences so far. */
  ghost predicate Tallied(guess: seq<Element>, i: nat, counts: map<Element, nat>, unique: seq<Element>)
    requires i <= |guess|
  {
    && unique == Dedup(guess[..i])
    && (forall e :: e in counts <==> e in unique)
    && (forall e :: e in counts ==> counts[e] == multiset(guess[..i])[e])
  }

  lemma {:induction false} TallyStep(guess: seq<Element>, i: nat, counts: map<Element, nat>, unique: seq<Element>)
    requires i < |guess| && Tallied(guess, i, counts, unique)
    ensures var e := guess[i];
            Tallied(guess, i + 1, counts[e := if e in counts then counts[e] + 1 else 1],
                    if e in counts then unique else unique + [e])
  {
    var e := guess[i];
    var next := guess[..i + 1];
    var counts' := counts[e := if e in counts then counts[e] + 1 else 1];
    var unique' := if e in counts then unique else unique + [e];
    assert next == guess[..i] + [e];
    assert unique' == Dedup(next) by {
      DedupSnoc(guess[..i], e);
    }
    assert multiset(next) == multiset(guess[..i]) + multiset{e};
    assert forall x :: x in counts' ==> counts'[x] == multiset(next)[x];
  }

  /** `new Set` grown by one element. */
  lemma DedupSnoc(p: seq<Element>, x: Element)
    ensures Dedup(p + [x]) == if x in Dedup(p) then Dedup(p) else Dedup(p) + [x]
  {
    assert (p + [x])[..|p|] == p;
  }

  /** The `elementCounts` tally of `analyzeGuess` and its key list: the
      distinct elements in first-seen order, each with its number of
      occurrences. */
  method CountElements(guess: seq<Element>) returns (counts: map<Element, nat>, unique: seq<Element>)
    ensures unique == Dedup(guess)
    ensures forall e :: e in counts <==> e in guess
    ensures forall e :: e in counts ==> counts[e] == CountIn(guess, e)
  {
    counts := map[];
    unique := [];
    var i := 0;
    while i < |guess|
      invariant 0 <= i <= |guess|
      invariant Tallied(guess, i, counts, unique)
    {
      TallyStep(guess, i, counts, unique);
      var e := guess[i];
      if e in counts {
        counts := counts[e := counts[e] + 1];
      } else {
        counts := counts[e := 1];
        unique := unique + [e];
      }
      i := i + 1;
    }
    assert guess[..i] == guess;
  }

  /** The inner loop of Rule 2: the feedback the confirmed elements of the
      guess other than `e` account for. */
  method ExpectedFeedback(confirmed: seq<Element>, exactCounts: map<Element, nat>, ghost guess: seq<Element>,
                          counts: map<Element, nat>, unique: seq<Element>, e: Element) returns (n: nat)
    requires forall o :: o in unique ==> o in counts && counts[o] == CountIn(guess, o)
    ensures n == ExpectedFromOthers(confirmed, exactCounts, guess, unique, e)
  {
    n := 0;
    var i := 0;
    while i < |unique|
      invariant 0 <= i <= |unique|
      invariant n == ExpectedFromOthers(confirmed, exactCounts, guess, unique[..i], e)
    {
      var o := unique[i];
      assert unique[..i + 1][..i] == unique[..i];
      if o != e && o in confirmed {
        n := n + Min(counts[o], ConfirmedCount(exactCounts, o));
      }
      i := i + 1;
    }
    assert unique[..i] == unique;
  }

  /** One more element considered by the loop of Rule 2: the targets grow
      by it exactly when Rule 2 eliminates it, and deleting it from the
      positions after the earlier targets is deleting all of them at once. */
  lemma Rule2TargetsStep(st: EngineState, guess: seq<Element>, total: nat, es: seq<Element>, x: Element, hit: bool)
    requires hit == (ExpectedFromOthers(st.confirmed, st.counts, guess, Dedup(guess), x) >= total && x !in st.confirmed)
    ensures var t := Rule2Targets(st, guess, total, es);
            var t' := Rule2Targets(st, guess, total, es + [x]);
            && (hit ==> t' == t + {x} && DropFromAll(DropFromAll(st.possible, t), {x}) == DropFromAll(st.possible, t'))
            && (!hit ==> t' == t)
  {
    var t := Rule2Targets(st, guess, total, es);
    if hit {
      DropFromAllTwice(st.possible, t, x);
    }
  }

  /** The positions loop of Deduction 2: indices whose set holds `e`. */
  method PositionsIn(possible: seq<seq<Element>>, e: Element, n: nat) returns (ps: seq<nat>)
    requires n <= |possible|
    ensures ps == PositionsOf(possible, e, n)
  {
    ps := [];
    var i := 0;
    while i < n
      invariant 0 <= i <= n
      invariant ps == PositionsOf(possible, e, i)
    {
      if e in possible[i] {
        ps := ps + [i];
      }
      i := i + 1;
    }
  }

  /** The singleton-position loop (`getDeducedPositions`, and the start of
      Deduction 3). */
  method SingletonsIn(possible: seq<seq<Element>>, n: nat) returns (ds: seq<nat>)
    requires n <= |possible|
    ensures ds == SingletonPositions(possible, n)
  {
    ds := [];
    var i := 0;
    while i < n
      invariant 0 <= i <= n
      invariant ds == SingletonPositions(possible, i)
    {
      if |possible[i]| == 1 {
        ds := ds + [i];
      }
      i := i + 1;
    }
  }

  /** `findIndex(set => set.size > 1)`. */
  method FindUndeduced(possible: seq<seq<Element>>) returns (r: Option<nat>)
    ensures r == FirstUndeduced(possible, 0)
  {
    var i := 0;
    while i < |possible| && |possible[i]| <= 1
      invariant 0 <= i <= |possible|
      invariant FirstUndeduced(possible, 0) == FirstUndeduced(possible, i)
    {
      i := i + 1;
    }
    r := if i < |possible| then Some(i) else None;
  }

  /** The `deducedElements` set of Deduction 3. */
  method DeducedElements(possible: seq<seq<Element>>, ds: seq<nat>) returns (known: set<Element>)
    requires forall k :: 0 <= k < |ds| ==> ds[k] < |possible| && |possible[ds[k]]| == 1
    ensures known == ElementsAt(possible, ds)
  {
    known := {};
    var i := 0;
    while i < |ds|
      invariant 0 <= i <= |ds|
      invariant known == set k | 0 <= k < i :: possible[ds[k]][0]
    {
      ghost var before := set k | 0 <= k < i :: possible[ds[k]][0];
      known := known + {possible[ds[i]][0]};
      assert (set k | 0 <= k < i + 1 :: possible[ds[k]][0]) == before + {possible[ds[i]][0]};
      i := i + 1;
    }
  }

  /** `find(el => !known.has(el))`. */
  method FindMissing(s: seq<Element>, known: set<Element>) returns (r: Option<Element>)
    ensures r == FirstNotIn(s, known)
  {
    var i := 0;
    while i < |s| && s[i] in known
      invariant 0 <= i <= |s|
      invariant FirstNotIn(s, known) == FirstNotIn(s[i..], known)
    {
      assert s[i..][1..] == s[i + 1..];
      i := i + 1;
    }
    r := if i < |s| then Some(s[i]) else None;
  }

  // ---------------------------------------------------------------------
  // The engine object

  class LogicDeductionEngine {
    const codeLength: nat
    const allElements: seq<Element>
    var possibleByPosition: seq<seq<Element>>
    var eliminatedElements: set<Element>
    var confirmedElements: seq<Element>
    var elementExactCounts: map<Element, nat>

    /** The fields as one value. */
    function State(): EngineState
      reads this
    {
      EngineState(possibleByPosition, eliminatedElements, confirmedElements, elementExactCounts)
    }

    ghost predicate Valid()
      reads this
    {
      Wf(State(), codeLength, allElements)
    }

    /** `constructor`, which ends with `reset`. */
    constructor(codeLength: nat, allElements: seq<Element>)
      ensures this.codeLength == codeLength && this.allElements == allElements
      ensures State() == Initial(codeLength, allElements)
      ensures Valid()
    {
      this.codeLength := codeLength;
      this.allElements := allElements;
      var candidates := NewSet(allElements);
      possibleByPosition := seq(codeLength, _ => candidates);
      eliminatedElements := {};
      confirmedElements := [];
      elementExactCounts := map[];
      new;
      InitialWf(codeLength, allElements);
    }

    /** `reset`: every position may again hold every element. */
    method Reset()
      modifies this
      ensures State() == Initial(codeLength, allElements)
      ensures Valid()
    {
      var candidates := NewSet(allElements);
      possibleByPosition := seq(codeLength, _ => candidates);
      eliminatedElements := {};
      confirmedElements := [];
      elementExactCounts := map[];
      InitialWf(codeLength, allElements);
    }

    /** `getConfirmedCount`. */
    function GetConfirmedCount(e: Element): (r: nat)
      reads this
      ensures r == ConfirmedCount(State().counts, e)
      ensures e !in elementExactCounts ==> r == 0
    {
      if e in elementExactCounts then elementExactCounts[e] else 0
    }

    /** `setElementCount`: records the exact count and changes nothing else. */
    method SetElementCount(e: Element, count: nat)
      modifies this
      ensures GetConfirmedCount(e) == count
      ensures forall x :: x != e ==> GetConfirmedCount(x) == old(GetConfirmedCount(x))
      ensures State() == old(State()).(counts := old(elementExactCounts)[e := count])
    {
      elementExactCounts := elementExactCounts[e := count];
    }

    /** Adds `e` to the eliminated elements and deletes it from every
        position. */
    method Eliminate(e: Element)
      requires |possibleByPosition| == codeLength
      modifies this
      ensures State() == old(State()).(eliminated := old(eliminatedElements) + {e},
                                       possible := DropFromAll(old(possibleByPosition), {e}))
    {
      eliminatedElements := eliminatedElements + {e};
      ghost var p0 := possibleByPosition;
      var i := 0;
      while i < codeLength
        invariant 0 <= i <= codeLength
        invariant |possibleByPosition| == codeLength
        invariant forall j :: 0 <= j < i ==> possibleByPosition[j] == RemoveAll(p0[j], {e})
        invariant forall j :: i <= j < codeLength ==> possibleByPosition[j] == p0[j]
        invariant eliminatedElements == old(eliminatedElements) + {e}
        invariant confirmedElements == old(confirmedElements) && elementExactCounts == old(elementExactCounts)
      {
        possibleByPosition := possibleByPosition[i := RemoveAll(possibleByPosition[i], {e})];
        i := i + 1;
      }
      assert possibleByPosition == DropFromAll(p0, {e});
    }

    /** Rule 1 of `analyzeGuess`. */
    method ApplyRule1(ghost guess: seq<Element>, unique: seq<Element>, total: nat)
      requires unique == Dedup(guess) && |possibleByPosition| == codeLength
      modifies this
      ensures |possibleByPosition| == |old(possibleByPosition)|
      ensures State() == Rule1(old(State()), guess, total)
    {
      var i := 0;
      while i < |unique|
        invariant 0 <= i <= |unique|
        invariant |possibleByPosition| == codeLength
        invariant State() == if i == 0 then old(State()) else Rule1(old(State()), guess, total)
      {
        if |unique| == 1 && total == 0 {
          Eliminate(unique[i]);
        }
        i := i + 1;
      }
    }

    /** One pass of Rule 2's loop: element `unique[i]` is eliminated when
        the confirmed others already account for the feedback. */
    method ConsiderForRule2(ghost st0: EngineState, ghost guess: seq<Element>, counts: map<Element, nat>,
                            unique: seq<Element>, total: nat, i: nat)
      requires unique == Dedup(guess) && i < |unique| && |possibleByPosition| == codeLength
      requires forall o :: o in unique ==> o in counts && counts[o] == CountIn(guess, o)
      requires State() == Rule2After(st0, guess, total, unique[..i])
      modifies this
      ensures |possibleByPosition| == codeLength
      ensures State() == Rule2After(st0, guess, total, unique[..i + 1])
    {
      var e := unique[i];
      assert unique[..i + 1] == unique[..i] + [e];
      var expected := ExpectedFeedback(confirmedElements, elementExactCounts, guess, counts, unique, e);
      Rule2TargetsStep(st0, guess, total, unique[..i], e, expected >= total && e !in confirmedElements);
      if expected >= total && e !in confirmedElements {
        Eliminate(e);
      }
    }

    /** Rule 2 of `analyzeGuess`. */
    method ApplyRule2(ghost guess: seq<Element>, counts: map<Element, nat>, unique: seq<Element>, total: nat)
      requires unique == Dedup(guess) && |possibleByPosition| == codeLength
      requires forall o :: o in unique ==> o in counts && counts[o] == CountIn(guess, o)
      modifies this
      ensures |possibleByPosition| == |old(possibleByPosition)|
      ensures State() == Rule2(old(State()), guess, total)
    {
      if |unique| > 1 {
        ghost var st0 := State();
        Rule2AfterNothing(st0, guess, total);
        assert unique[..0] == [];
        var i := 0;
        while i < |unique|
          invariant 0 <= i <= |unique|
          invariant |possibleByPosition| == codeLength
          invariant State() == Rule2After(st0, guess, total, unique[..i])
        {
          ConsiderForRule2(st0, guess, counts, unique, total, i);
          i := i + 1;
        }
        assert unique[..i] == unique;
        assert Rule2(st0, guess, total) == Rule2After(st0, guess, total, unique);
      }
    }

    /** Rule 3 of `analyzeGuess`. */
    method ApplyRule3(ghost guess: seq<Element>, unique: seq<Element>, total: nat)
      requires unique == Dedup(guess)
      modifies this
      ensures |possibleByPosition| == |old(possibleByPosition)|
      ensures State() == Rule3(old(State()), guess, total)
    {
      if |unique| == 1 && total > 0 {
        var e := unique[0];
        if e !in confirmedElements {
          confirmedElements := confirmedElements + [e];
        }
        SetElementCount(e, total);
      }
    }

    /** `analyzeGuess`: the three rules, then the advanced deductions; the
        invariant is kept and the new state is the one `Analyze` defines. */
    method AnalyzeGuess(guess: seq<Element>, feedback: Feedback)
      requires Valid()
      modifies this
      ensures Valid()
      ensures State() == Analyze(old(State()), guess, feedback)
    {
      ghost var st0 := State();
      AnalyzeKeepsWf(st0, codeLength, allElements, guess, feedback);
      var total := feedback.black + feedback.white;
      var counts, unique := CountElements(guess);
      ApplyRule1(guess, unique, total);
      ApplyRule2(guess, counts, unique, total);
      ApplyRule3(guess, unique, total);
      ghost var s3 := State();
      assert s3 == Rule3(Rule2(Rule1(st0, guess, total), guess, total), guess, total);
      PerformAdvancedDeductions();
    }

    /** Deletes `e` from every position but `i`. */
    method RemoveElsewhere(e: Element, i: nat)
      requires |possibleByPosition| == codeLength
      modifies this
      ensures possibleByPosition == RemoveExcept(old(possibleByPosition), e, i)
      ensures eliminatedElements == old(eliminatedElements) && confirmedElements == old(confirmedElements)
      ensures elementExactCounts == old(elementExactCounts)
    {
      ghost var p0 := possibleByPosition;
      var j := 0;
      while j < codeLength
        invariant 0 <= j <= codeLength
        invariant |possibleByPosition| == codeLength
        invariant forall k :: 0 <= k < j ==> possibleByPosition[k] == if k != i then RemoveAll(p0[k], {e}) else p0[k]
        invariant forall k :: j <= k < codeLength ==> possibleByPosition[k] == p0[k]
        invariant eliminatedElements == old(eliminatedElements) && confirmedElements == old(confirmedElements)
        invariant elementExactCounts == old(elementExactCounts)
      {
        if j != i {
          possibleByPosition := possibleByPosition[j := RemoveAll(possibleByPosition[j], {e})];
        }
        j := j + 1;
      }
      assert possibleByPosition == RemoveExcept(p0, e, i);
    }

    /** Deduction 1. */
    method DeduceSingletons()
      requires |possibleByPosition| == codeLength
      modifies this
      ensures State() == Deduce1From(old(State()), 0)
    {
      ghost var st0 := State();
      var i := 0;
      while i < codeLength
        invariant 0 <= i <= codeLength
        invariant |possibleByPosition| == codeLength
        invariant Deduce1From(State(), i) == Deduce1From(st0, 0)
      {
        DeduceSingletonAt(i);
        i := i + 1;
      }
    }

    /** One pass of Deduction 1's loop, at position `i`. */
    method DeduceSingletonAt(i: nat)
      requires i < codeLength && |possibleByPosition| == codeLength
      modifies this
      ensures |possibleByPosition| == codeLength
      ensures State() == Deduce1At(old(State()), i)
    {
      if |possibleByPosition[i]| == 1 {
        var e := possibleByPosition[i][0];
        if e !in confirmedElements {
          confirmedElements := confirmedElements + [e];
          RemoveElsewhere(e, i);
        }
      }
    }

    /** Deduction 2, over the confirmed elements in insertion order. */
    method DeduceConfirmedPlaces()
      requires |possibleByPosition| == codeLength
      modifies this
      ensures State() == Deduce2Over(old(State()), old(confirmedElements))
    {
      ghost var st0 := State();
      var confirmed := confirmedElements;
      var k := 0;
      while k < |confirmed|
        invariant 0 <= k <= |confirmed|
        invariant |possibleByPosition| == codeLength
        invariant State() == Deduce2Over(st0, confirmed[..k])
      {
        assert confirmed[..k + 1][..k] == confirmed[..k];
        DeducePlaceOf(confirmed[k]);
        k := k + 1;
      }
      assert confirmed[..k] == confirmed;
    }

    /** One pass of Deduction 2's loop, for the confirmed element `e`. */
    method DeducePlaceOf(e: Element)
      requires |possibleByPosition| == codeLength
      modifies this
      ensures |possibleByPosition| == codeLength
      ensures State() == Deduce2For(old(State()), e)
    {
      var positions := PositionsIn(possibleByPosition, e, codeLength);
      if |positions| == 1 {
        possibleByPosition := possibleByPosition[positions[0] := [e]];
      }
    }

    /** Deduction 3. */
    method DeduceLastPosition()
      requires |possibleByPosition| == codeLength
      modifies this
      ensures State() == Deduce3(old(State()))
    {
      var deduced := SingletonsIn(possibleByPosition, codeLength);
      if |deduced| == codeLength - 1 {
        var undeduced := FindUndeduced(possibleByPosition);
        if undeduced.Some? {
          var u := undeduced.value;
          var known := DeducedElements(possibleByPosition, deduced);
          var missing := FindMissing(possibleByPosition[u], known);
          if missing.Some? && missing.value != "" {
            possibleByPosition := possibleByPosition[u := [missing.value]];
            if missing.value !in confirmedElements {
              confirmedElements := confirmedElements + [missing.value];
            }
          }
        }
      }
    }

    /** `performAdvancedDeductions`: Deductions 1, 2 and 3 in order; the new
        state is the one `Advanced` defines (which keeps the invariant, by
        `AdvancedKeepsWf`). */
    method PerformAdvancedDeductions()
      requires |possibleByPosition| == codeLength
      modifies this
      ensures State() == Advanced(old(State()))
    {
      DeduceSingletons();
      DeduceConfirmedPlaces();
      DeduceLastPosition();
    }

    /** `getPossibleElements`: an empty list outside the code; every element
        listed is one of the game's elements and not eliminated. */
    function GetPossibleElements(position: int): (r: seq<Element>)
      requires Valid()
      reads this
      ensures position < 0 || position >= codeLength ==> r == []
      ensures forall x :: x in r ==> x in allElements && x !in eliminatedElements
      ensures 0 <= position < codeLength ==> r == State().possible[position]
    {
      if position < 0 || position >= codeLength then [] else possibleByPosition[position]
    }

    /** `isPositionDeduced`: inside the code and exactly one candidate left. */
    function IsPositionDeduced(position: int): (r: bool)
      requires Valid()
      reads this
      ensures r <==> 0 <= position < codeLength && |GetPossibleElements(position)| == 1
    {
      if position < 0 || position >= codeLength then false else |possibleByPosition[position]| == 1
    }

    /** `getDeducedPositions`: the deduced positions, ascending. */
    method GetDeducedPositions() returns (r: seq<nat>)
      requires Valid()
      ensures forall k :: 0 <= k < |r| ==> IsPositionDeduced(r[k])
      ensures forall i :: 0 <= i < codeLength && IsPositionDeduced(i) ==> i in r
      ensures forall a, b :: 0 <= a < b < |r| ==> r[a] < r[b]
    {
      r := SingletonsIn(possibleByPosition, codeLength);
    }

    /** `getDeducedElement`: the single candidate of a deduced position,
        otherwise null. */
    function GetDeducedElement(position: int): (r: Option<Element>)
      requires Valid()
      reads this
      ensures r.Some? <==> IsPositionDeduced(position)
      ensures r.Some? ==> GetPossibleElements(position) == [r.value]
    {
      if IsPositionDeduced(position) then Some(possibleByPosition[position][0]) else None
    }

    /** `getAllPossibilities`: one candidate list per position. */
    function GetAllPossibilities(): (r: seq<seq<Element>>)
      requires Valid()
      reads this
      ensures |r| == codeLength
      ensures forall i :: 0 <= i < codeLength ==> r[i] == GetPossibleElements(i)
    {
      possibleByPosition
    }

    /** `getPossibilityCount`: 0 outside the code, else the number of
        candidates. */
    function GetPossibilityCount(position: int): (r: nat)
      requires Valid()
      reads this
      ensures r == |GetPossibleElements(position)|
    {
      if position < 0 || position >= codeLength then 0 else |possibleByPosition[position]|
    }

    /** `isElementEliminated`: an eliminated element is a candidate nowhere. */
    function IsElementEliminated(e: Element): (r: bool)
      requires Valid()
      reads this
      ensures r ==> forall i :: 0 <= i < codeLength ==> e !in GetPossibleElements(i)
      ensures r <==> e in State().eliminated
    {
      e in eliminatedElements
    }

    /** `isElementConfirmed`. */
    function IsElementConfirmed(e: Element): (r: bool)
      reads this
      ensures r <==> e in State().confirmed
    {
      e in confirmedElements
    }
  }
}
