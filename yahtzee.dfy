/**
 * The Yahtzee hold planner of week4_yahtzee.py: enumerate rolls and holds,
 * score a hand against the upper section, average the score over all rolls
 * of the free dice, and pick the hold with the best expected score.
 *
 * Python tuples are sequences and Python sets are Dafny sets; the source's
 * floats are `real`s.
 */
module Yahtzee {

  // ---------------------------------------------------------------------------
  // `gen_all_sequences`

  /** Every sequence of `partials` extended by one item of `outcomes`. */
  function Extend(partials: set<seq<int>>, outcomes: seq<int>): set<seq<int>>
  {
    set p, x | p in partials && x in outcomes :: p + [x]
  }

  /** The set `gen_all_sequences(outcomes, n)` builds, one round of `Extend` per position. */
  function AllSequences(outcomes: seq<int>, n: nat): set<seq<int>>
  {
    if n == 0 then {[]} else Extend(AllSequences(outcomes, n - 1), outcomes)
  }

  method GenAllSequences(outcomes: seq<int>, length: nat) returns (answerSet: set<seq<int>>)
    ensures answerSet == AllSequences(outcomes, length)
  {
    answerSet := {[]};
    for idx := 0 to length
      invariant answerSet == AllSequences(outcomes, idx)
    {
      answerSet := ExtendRound(answerSet, outcomes);
    }
  }

  /** One round of `gen_all_sequences`: every partial sequence extended by every outcome. */
  method ExtendRound(answerSet: set<seq<int>>, outcomes: seq<int>) returns (tempSet: set<seq<int>>)
    ensures tempSet == Extend(answerSet, outcomes)
  {
    tempSet := {};
    var rest := answerSet;
    while rest != {}
      invariant rest <= answerSet
      invariant tempSet == Extend(answerSet - rest, outcomes)
      decreases |rest|
    {
      var partialSequence :| partialSequence in rest;
      ExtendOneMore(answerSet - rest, partialSequence, outcomes);
      for j := 0 to |outcomes|
        invariant tempSet == Extend(answerSet - rest, outcomes) + Extend({partialSequence}, outcomes[..j])
      {
        assert outcomes[..j + 1] == outcomes[..j] + [outcomes[j]];
        ExtendSnoc({partialSequence}, outcomes[..j], outcomes[j]);
        tempSet := tempSet + {partialSequence + [outcomes[j]]};
      }
      assert outcomes[..|outcomes|] == outcomes;
      assert answerSet - (rest - {partialSequence}) == (answerSet - rest) + {partialSequence};
      rest := rest - {partialSequence};
    }
    assert answerSet - rest == answerSet;
  }

  lemma ExtendMember(partials: set<seq<int>>, outcomes: seq<int>, p: seq<int>, x: int)
    requires p in partials && x in outcomes
    ensures p + [x] in Extend(partials, outcomes)
  {
  }

  lemma ExtendOneMore(done: set<seq<int>>, p: seq<int>, outcomes: seq<int>)
    ensures Extend(done + {p}, outcomes) == Extend(done, outcomes) + Extend({p}, outcomes)
  {
  }

  lemma ExtendSnoc(partials: set<seq<int>>, outcomes: seq<int>, x: int)
    ensures Extend(partials, outcomes + [x]) == Extend(partials, outcomes) + Image(partials, x)
  {
  }

  /** `gen_all_sequences(outcomes, n)` holds exactly the length-`n` sequences over `outcomes`. */
  lemma {:induction false} AllSequencesExactly(outcomes: seq<int>, n: nat, s: seq<int>)
    ensures s in AllSequences(outcomes, n) <==> |s| == n && forall i :: 0 <= i < |s| ==> s[i] in outcomes
  {
    if n == 0 {
    } else {
      if |s| == n && forall i :: 0 <= i < |s| ==> s[i] in outcomes {
        var p := s[..n - 1];
        AllSequencesExactly(outcomes, n - 1, p);
        assert forall i :: 0 <= i < |p| ==> p[i] == s[i];
        assert p in AllSequences(outcomes, n - 1);
        assert s[n - 1] in outcomes;
        ExtendMember(AllSequences(outcomes, n - 1), outcomes, p, s[n - 1]);
        assert s == p + [s[n - 1]];
      }
      if s in AllSequences(outcomes, n) {
        var p, x :| p in AllSequences(outcomes, n - 1) && x in outcomes && s == p + [x];
        AllSequencesExactly(outcomes, n - 1, p);
        assert |p| == n - 1 && |s| == n;
        forall i | 0 <= i < |s|
          ensures s[i] in outcomes
        {
          if i < |p| {
            assert s[i] == p[i];
          } else {
            assert s[i] == x;
          }
        }
      }
    }
  }

  /** The sequences of `partials`, each with `x` appended. */
  function Image(partials: set<seq<int>>, x: int): set<seq<int>>
  {
    set p | p in partials :: p + [x]
  }

  lemma {:induction false} ImageSize(partials: set<seq<int>>, x: int)
    ensures |Image(partials, x)| == |partials|
    decreases |partials|
  {
    if partials != {} {
      var p :| p in partials;
      var others := partials - {p};
      ImageSize(others, x);
      forall q | q in others
        ensures q + [x] != p + [x]
      {
        if |q| == |p| {
          assert (q + [x])[..|q|] == q && (p + [x])[..|p|] == p;
        }
      }
      assert Image(partials, x) == Image(others, x) + {p + [x]};
    }
  }

  predicate Distinct(s: seq<int>)
  {
    forall i, j :: 0 <= i < j < |s| ==> s[i] != s[j]
  }

  function Power(b: nat, e: nat): nat
  {
    if e == 0 then 1 else Power(b, e - 1) * b
  }

  lemma {:induction false} ExtendSize(partials: set<seq<int>>, outcomes: seq<int>)
    requires Distinct(outcomes)
    ensures |Extend(partials, outcomes)| == |partials| * |outcomes|
    decreases |outcomes|
  {
    if outcomes != [] {
      var k := |outcomes| - 1;
      var init, x := outcomes[..k], outcomes[k];
      assert outcomes == init + [x];
      ExtendSize(partials, init);
      ExtendSnoc(partials, init, x);
      ImageSize(partials, x);
      forall s | s in Extend(partials, init)
        ensures s !in Image(partials, x)
      {
        var p, y :| p in partials && y in init && s == p + [y];
        assert s[|s| - 1] == y != x;
      }
      var e, i := Extend(partials, init), Image(partials, x);
      assert e * i == {};
      assert |e + i| == |e| + |i|;
      assert Extend(partials, outcomes) == e + i;
      MulSucc(|partials|, |init|);
    }
  }

  lemma MulSucc(a: nat, b: nat)
    ensures a * (b + 1) == a * b + a
  {
  }

  /** With distinct outcomes there are |outcomes|^n sequences of length `n`. */
  lemma {:induction false} AllSequencesCount(outcomes: seq<int>, n: nat)
    requires Distinct(outcomes)
    ensures |AllSequences(outcomes, n)| == Power(|outcomes|, n)
  {
    if n > 0 {
      AllSequencesCount(outcomes, n - 1);
      ExtendSize(AllSequences(outcomes, n - 1), outcomes);
    }
  }

  // ---------------------------------------------------------------------------
  // `score`

  /** The largest element of `s`, as Python's `max`. */
  function MaxOf(s: seq<int>): (m: int)
    requires |s| > 0
    ensures m in s
    ensures forall i :: 0 <= i < |s| ==> s[i] <= m
  {
    if |s| == 1 then s[0]
    else
      var m := MaxOf(s[1..]);
      if s[0] > m then s[0] else m
  }

  /** `score_tuple`: each die times the number of dice showing the same value. */
  function ScoreTuple(hand: seq<int>): (t: seq<int>)
    ensures |t| == |hand|
  {
    seq(|hand|, i requires 0 <= i < |hand| => hand[i] * multiset(hand)[hand[i]])
  }

  /** The upper-section score of a non-empty hand. */
  function UpperScore(hand: seq<int>): int
    requires |hand| > 0
  {
    MaxOf(ScoreTuple(hand))
  }

  method Score(hand: seq<int>) returns (r: int)
    requires |hand| > 0
    ensures r == UpperScore(hand)
  {
    var scoreTuple: seq<int> := [];
    for i := 0 to |hand|
      invariant scoreTuple == ScoreTuple(hand)[..i]
    {
      var eachCount := hand[i];
      var tempScore := eachCount * multiset(hand)[eachCount];
      scoreTuple := scoreTuple + [tempScore];
    }
    assert ScoreTuple(hand)[..|hand|] == ScoreTuple(hand);
    r := MaxOf(scoreTuple);
  }

  /**
   * The score of a hand is the largest `d * count(d)` over the dice `d` in
   * it: `best` is a die that attains it.
   */
  lemma UpperScoreIsBest(hand: seq<int>) returns (best: int)
    requires |hand| > 0
    ensures best in hand && UpperScore(hand) == best * multiset(hand)[best]
    ensures forall d :: d in hand ==> d * multiset(hand)[d] <= UpperScore(hand)
  {
    var t := ScoreTuple(hand);
    var i :| 0 <= i < |t| && t[i] == UpperScore(hand);
    best := hand[i];
    forall d | d in hand
      ensures d * multiset(hand)[d] <= UpperScore(hand)
    {
      var j :| 0 <= j < |hand| && hand[j] == d;
      UpperScoreBounds(hand, j);
    }
  }

  lemma UpperScoreBounds(hand: seq<int>, j: int)
    requires 0 <= j < |hand|
    ensures hand[j] * multiset(hand)[hand[j]] <= UpperScore(hand)
  {
    assert ScoreTuple(hand)[j] == hand[j] * multiset(hand)[hand[j]];
  }

  /** The score does not depend on the order of the dice. */
  lemma UpperScoreIgnoresOrder(a: seq<int>, b: seq<int>)
    requires |a| > 0 && multiset(a) == multiset(b)
    ensures |b| > 0
    ensures UpperScore(a) == UpperScore(b)
  {
    assert |a| == |multiset(a)| == |multiset(b)| == |b|;
    var da := UpperScoreIsBest(a);
    var db := UpperScoreIsBest(b);
    assert da in multiset(b);
    assert db in multiset(a);
  }

  // ---------------------------------------------------------------------------
  // `expected_value`

  /** `[number + 1 for number in range(sides)]` */
  function Outcomes(sides: nat): (o: seq<int>)
    ensures |o| == sides && Distinct(o)
  {
    seq(sides, number => number + 1)
  }

  /** The faces of a die are exactly 1 to `sides`. */
  lemma OutcomesAreFaces(sides: nat)
    ensures forall x :: x in Outcomes(sides) <==> 1 <= x <= sides
  {
    forall x | 1 <= x <= sides
      ensures x in Outcomes(sides)
    {
      assert Outcomes(sides)[x - 1] == x;
    }
  }

  /** The sum of the scores of `held + roll` over `rolls`. */
  ghost function TotalScore(held: seq<int>, rolls: set<seq<int>>): int
    requires held != [] || [] !in rolls
  {
    if rolls == {} then 0
    else
      var roll :| roll in rolls;
      UpperScore(held + roll) + TotalScore(held, rolls - {roll})
  }

  lemma {:induction false} TotalScorePick(held: seq<int>, rolls: set<seq<int>>, roll: seq<int>)
    requires held != [] || [] !in rolls
    requires roll in rolls
    ensures TotalScore(held, rolls) == UpperScore(held + roll) + TotalScore(held, rolls - {roll})
    decreases |rolls|
  {
    var r :| r in rolls && TotalScore(held, rolls) == UpperScore(held + r) + TotalScore(held, rolls - {r});
    if r != roll {
      TotalScorePick(held, rolls - {r}, roll);
      TotalScorePick(held, rolls - {roll}, r);
      assert rolls - {r} - {roll} == rolls - {roll} - {r};
    }
  }

  /** A roll of at least one die is not empty. */
  lemma NoEmptyRoll(outcomes: seq<int>, n: nat)
    ensures n > 0 ==> [] !in AllSequences(outcomes, n)
  {
    AllSequencesExactly(outcomes, n, []);
  }

  /** Every roll of `free` dice has `free` values, and there are sides^free of them. */
  lemma RollsShape(sides: nat, free: nat)
    ensures forall roll :: roll in AllSequences(Outcomes(sides), free) ==> |roll| == free
    ensures |AllSequences(Outcomes(sides), free)| == Power(sides, free)
  {
    forall roll | roll in AllSequences(Outcomes(sides), free)
      ensures |roll| == free
    {
      AllSequencesExactly(Outcomes(sides), free, roll);
    }
    AllSequencesCount(Outcomes(sides), free);
  }

  lemma {:induction false} PowerPositive(b: nat, e: nat)
    requires b >= 1 || e == 0
    ensures Power(b, e) >= 1
  {
    if e > 0 {
      PowerPositive(b, e - 1);
    }
  }

  /** The average score of `held` plus a roll of `free` dice with `sides` sides each. */
  ghost function ExpectedValueSpec(held: seq<int>, sides: nat, free: nat): real
    requires |held| + free > 0 && (sides >= 1 || free == 0)
  {
    var rolls := AllSequences(Outcomes(sides), free);
    NoEmptyRoll(Outcomes(sides), free);
    // There are sides^free >= 1 rolls (`RollsShape`), so the first branch is never taken.
    if rolls == {} then 0.0 else TotalScore(held, rolls) as real / |rolls| as real
  }

  method ExpectedValue(heldDice: seq<int>, numDieSides: nat, numFreeDice: nat) returns (expectedVal: real)
    requires |heldDice| + numFreeDice > 0 && (numDieSides >= 1 || numFreeDice == 0)
    ensures expectedVal == ExpectedValueSpec(heldDice, numDieSides, numFreeDice)
  {
    var outcomes := seq(numDieSides, number => number + 1);
    var possibleRolls := GenAllSequences(outcomes, numFreeDice);
    assert outcomes == Outcomes(numDieSides);
    AllSequencesCount(outcomes, numFreeDice);
    PowerPositive(numDieSides, numFreeDice);
    NoEmptyRoll(outcomes, numFreeDice);
    expectedVal := 0.0;
    var totalScore := SumScores(heldDice, possibleRolls);
    expectedVal := expectedVal + totalScore as real * 1.0 / |possibleRolls| as real;
  }

  /** The loop of `expected_value`: the scores of `held_dice + roll` summed over `possible_rolls`. */
  method SumScores(heldDice: seq<int>, possibleRolls: set<seq<int>>) returns (totalScore: int)
    requires heldDice != [] || [] !in possibleRolls
    ensures totalScore == TotalScore(heldDice, possibleRolls)
  {
    totalScore := 0;
    var rest := possibleRolls;
    while rest != {}
      invariant rest <= possibleRolls
      invariant totalScore + TotalScore(heldDice, rest) == TotalScore(heldDice, possibleRolls)
      decreases |rest|
    {
      var eachRoll :| eachRoll in rest;
      TotalScorePick(heldDice, rest, eachRoll);
      var totalDice := heldDice + eachRoll;
      var s := Score(totalDice);
      totalScore := totalScore + s;
      rest := rest - {eachRoll};
    }
  }

  /** With no free dice the only roll is `()`, and the expected value is the score of the held dice. */
  lemma ExpectedValueOfNoFreeDice(held: seq<int>, sides: nat)
    requires |held| > 0
    ensures ExpectedValueSpec(held, sides, 0) == UpperScore(held) as real
  {
    var rolls := AllSequences(Outcomes(sides), 0);
    assert rolls == {[]};
    TotalScorePick(held, rolls, []);
    assert held + [] == held;
  }

  // ---------------------------------------------------------------------------
  // `gen_all_holds`

  /** `gen_all_holds`: the holds of `hand[:-1]`, each also with the last die. */
  function GenAllHolds(hand: seq<int>): (holds: set<seq<int>>)
    ensures [] in holds
    ensures forall t :: t in holds ==> |t| <= |hand|
  {
    if |hand| == 0 then {[]}
    else
      var tempHolds := GenAllHolds(hand[..|hand| - 1]);
      {[]} + tempHolds + Image(tempHolds, hand[|hand| - 1])
  }

  /** `idx` lists positions below `n` in strictly increasing order. */
  predicate Increasing(idx: seq<int>, n: int)
  {
    && (forall k :: 0 <= k < |idx| ==> 0 <= idx[k] < n)
    && (forall j, k :: 0 <= j < k < |idx| ==> idx[j] < idx[k])
  }

  /** `t` is the dice of `hand` at positions `idx`. */
  predicate PicksOut(t: seq<int>, hand: seq<int>, idx: seq<int>)
  {
    |idx| == |t| && Increasing(idx, |hand|) && forall k :: 0 <= k < |t| ==> t[k] == hand[idx[k]]
  }

  /** `t` keeps some of the dice of `hand`, in their order. */
  ghost predicate IsSubsequence(t: seq<int>, hand: seq<int>)
  {
    exists idx :: PicksOut(t, hand, idx)
  }

  lemma {:induction false} HoldsAreSubsequences(hand: seq<int>, t: seq<int>)
    requires t in GenAllHolds(hand)
    ensures IsSubsequence(t, hand)
  {
    if t == [] {
      assert PicksOut(t, hand, []);
    } else {
      assert hand != [];
      var n := |hand| - 1;
      var init := hand[..n];
      var tempHolds := GenAllHolds(init);
      if t in tempHolds {
        HoldsAreSubsequences(init, t);
        var idx :| PicksOut(t, init, idx);
        PicksOutOfPrefix(t, hand, idx);
      } else {
        var u :| u in tempHolds && t == u + [hand[n]];
        HoldsAreSubsequences(init, u);
        var idx :| PicksOut(u, init, idx);
        PicksOutLast(u, hand, idx);
      }
    }
  }

  lemma PicksOutOfPrefix(t: seq<int>, hand: seq<int>, idx: seq<int>)
    requires hand != [] && PicksOut(t, hand[..|hand| - 1], idx)
    ensures PicksOut(t, hand, idx)
  {
  }

  lemma PicksOutLast(u: seq<int>, hand: seq<int>, idx: seq<int>)
    requires hand != [] && PicksOut(u, hand[..|hand| - 1], idx)
    ensures PicksOut(u + [hand[|hand| - 1]], hand, idx + [|hand| - 1])
  {
  }

  lemma {:induction false} SubsequencesAreHolds(hand: seq<int>, t: seq<int>, idx: seq<int>)
    requires PicksOut(t, hand, idx)
    ensures t in GenAllHolds(hand)
  {
    if t != [] {
      assert 0 <= idx[0] < |hand|;
      var n := |hand| - 1;
      var init := hand[..n];
      var last := |idx| - 1;
      if idx[last] == n {
        var u, idxU := t[..last], idx[..last];
        assert PicksOut(u, init, idxU);
        SubsequencesAreHolds(init, u, idxU);
        assert t == u + [hand[n]];
      } else {
        assert PicksOut(t, init, idx);
        SubsequencesAreHolds(init, t, idx);
      }
    }
  }

  /** `gen_all_holds(hand)` holds exactly the order-preserving sub-sequences of `hand`. */
  lemma GenAllHoldsExactly(hand: seq<int>, t: seq<int>)
    ensures t in GenAllHolds(hand) <==> IsSubsequence(t, hand)
  {
    if t in GenAllHolds(hand) {
      HoldsAreSubsequences(hand, t);
    }
    if IsSubsequence(t, hand) {
      var idx :| PicksOut(t, hand, idx);
      SubsequencesAreHolds(hand, t, idx);
    }
  }

  /** Holding every die is one of the holds. */
  lemma {:induction false} HoldAll(hand: seq<int>)
    ensures hand in GenAllHolds(hand)
  {
    if hand != [] {
      var init := hand[..|hand| - 1];
      HoldAll(init);
      assert hand == init + [hand[|hand| - 1]];
    }
  }

  lemma {:induction false} ImageNoLarger(partials: set<seq<int>>, x: int)
    ensures |Image(partials, x)| <= |partials|
  {
    ImageSize(partials, x);
  }

  /** There are at most 2^|hand| holds. */
  lemma {:induction false} HoldsCount(hand: seq<int>)
    ensures |GenAllHolds(hand)| <= Power(2, |hand|)
  {
    if hand != [] {
      var init := hand[..|hand| - 1];
      var tempHolds := GenAllHolds(init);
      HoldsCount(init);
      ImageNoLarger(tempHolds, hand[|hand| - 1]);
      assert {[]} + tempHolds == tempHolds;
      assert |tempHolds + Image(tempHolds, hand[|hand| - 1])| <= |tempHolds| + |Image(tempHolds, hand[|hand| - 1])|;
    }
  }

  // ---------------------------------------------------------------------------
  // `strategy`

  /** Python's `<` on tuples of ints. */
  predicate LexLess(a: seq<int>, b: seq<int>)
  {
    if a == [] then b != []
    else if b == [] then false
    else a[0] < b[0] || (a[0] == b[0] && LexLess(a[1..], b[1..]))
  }

  /** Python's `<` on (expected value, hold) pairs. */
  predicate PairLess(p: (real, seq<int>), q: (real, seq<int>))
  {
    p.0 < q.0 || (p.0 == q.0 && LexLess(p.1, q.1))
  }

  lemma {:induction false} LexLessIrreflexive(a: seq<int>)
    ensures !LexLess(a, a)
  {
    if a != [] {
      LexLessIrreflexive(a[1..]);
    }
  }

  lemma {:induction false} LexLessTransitive(a: seq<int>, b: seq<int>, c: seq<int>)
    requires LexLess(a, b) && LexLess(b, c)
    ensures LexLess(a, c)
  {
    if a != [] && a[0] == b[0] && b[0] == c[0] {
      LexLessTransitive(a[1..], b[1..], c[1..]);
    }
  }

  /** `sorted(pairs, reverse=True)[0]`: a pair that no other pair exceeds. */
  function Greatest(pairs: seq<(real, seq<int>)>): (g: (real, seq<int>))
    requires |pairs| > 0
    ensures g in pairs
    ensures forall p :: p in pairs ==> !PairLess(g, p)
  {
    if |pairs| == 1 then
      LexLessIrreflexive(pairs[0].1);
      pairs[0]
    else
      var g := Greatest(pairs[1..]);
      if PairLess(g, pairs[0]) then
        LexLessIrreflexive(pairs[0].1);
        forall p | p in pairs[1..] && PairLess(pairs[0], p)
          ensures false
        {
          if LexLess(g.1, pairs[0].1) && LexLess(pairs[0].1, p.1) {
            LexLessTransitive(g.1, pairs[0].1, p.1);
          }
        }
        pairs[0]
      else
        g
  }

  /**
   * `strategy`: the hold of `hand` with the greatest expected value, the
   * lexicographically greatest hold among equal values, with that value.
   */
  method Strategy(hand: seq<int>, numDieSides: nat) returns (result: (real, seq<int>))
    requires |hand| > 0 && numDieSides >= 1
    ensures result.1 in GenAllHolds(hand)
    ensures result.0 == ExpectedValueSpec(result.1, numDieSides, FreeDice(|hand|, result.1))
    ensures forall h :: h in GenAllHolds(hand) ==>
      ExpectedValueSpec(h, numDieSides, FreeDice(|hand|, h)) <= result.0
    ensures forall h :: h in GenAllHolds(hand) && ExpectedValueSpec(h, numDieSides, FreeDice(|hand|, h)) == result.0 ==>
      !LexLess(result.1, h)
  {
    var holdsDict := HoldValues(hand, numDieSides);
    var tempList := DictItems(holdsDict);
    assert (holdsDict[[]], []) in tempList;
    result := Greatest(tempList);
    forall h | h in GenAllHolds(hand)
      ensures ExpectedValueSpec(h, numDieSides, FreeDice(|hand|, h)) <= result.0
      ensures ExpectedValueSpec(h, numDieSides, FreeDice(|hand|, h)) == result.0 ==> !LexLess(result.1, h)
    {
      assert (holdsDict[h], h) in tempList;
    }
  }

  /** The free dice left when `held` is kept from a hand of `handSize` dice. */
  function FreeDice(handSize: nat, held: seq<int>): nat
    requires |held| <= handSize
  {
    handSize - |held|
  }

  /** Every hold in `d` has at most `n` dice and maps to its expected value with `n - |h|` free dice. */
  ghost predicate Valued(d: map<seq<int>, real>, n: nat, sides: nat)
    requires n > 0 && sides >= 1
  {
    forall h :: h in d ==> |h| <= n && d[h] == ExpectedValueSpec(h, sides, FreeDice(n, h))
  }

  /** The first loop of `strategy`: `holds_dict` maps every hold to its expected value. */
  method HoldValues(hand: seq<int>, numDieSides: nat) returns (holdsDict: map<seq<int>, real>)
    requires |hand| > 0 && numDieSides >= 1
    ensures holdsDict.Keys == GenAllHolds(hand)
    ensures Valued(holdsDict, |hand|, numDieSides)
  {
    var possibleHold := GenAllHolds(hand);
    holdsDict := ValueHolds(possibleHold, |hand|, numDieSides);
  }

  /** The loop over `possible_hold`, for holds of at most `handSize` dice. */
  method ValueHolds(possibleHold: set<seq<int>>, handSize: nat, numDieSides: nat) returns (holdsDict: map<seq<int>, real>)
    requires handSize > 0 && numDieSides >= 1
    requires forall h :: h in possibleHold ==> |h| <= handSize
    ensures holdsDict.Keys == possibleHold
    ensures Valued(holdsDict, handSize, numDieSides)
  {
    holdsDict := map[];
    var rest := possibleHold;
    while rest != {}
      invariant rest <= possibleHold
      invariant holdsDict.Keys == possibleHold - rest
      invariant forall h :: h in holdsDict ==> |h| <= handSize && holdsDict[h] == ExpectedValueSpec(h, numDieSides, FreeDice(handSize, h))
      decreases |rest|
    {
      var eachHold :| eachHold in rest;
      var numFreeDice := FreeDice(handSize, eachHold);
      var expectedVal := ExpectedValue(eachHold, numDieSides, numFreeDice);
      ValuedUpdate(holdsDict, eachHold, expectedVal, handSize, numDieSides);
      // `holds_dict.get(each_hold, expected_val)` is `expected_val`: each hold is visited once.
      holdsDict := holdsDict[eachHold := expectedVal];
      rest := rest - {eachHold};
    }
  }

  lemma ValuedUpdate(d: map<seq<int>, real>, k: seq<int>, v: real, n: nat, sides: nat)
    requires n > 0 && sides >= 1 && |k| <= n
    requires forall h :: h in d ==> |h| <= n && d[h] == ExpectedValueSpec(h, sides, FreeDice(n, h))
    requires v == ExpectedValueSpec(k, sides, FreeDice(n, k))
    ensures forall h :: h in d[k := v] ==> |h| <= n && d[k := v][h] == ExpectedValueSpec(h, sides, FreeDice(n, h))
  {
  }

  /** The second loop of `strategy`: `temp_list` holds the (value, hold) pair of every entry. */
  method DictItems(holdsDict: map<seq<int>, real>) returns (tempList: seq<(real, seq<int>)>)
    ensures forall p :: p in tempList ==> p.1 in holdsDict && p.0 == holdsDict[p.1]
    ensures forall h :: h in holdsDict ==> (holdsDict[h], h) in tempList
  {
    tempList := [];
    var items := holdsDict.Keys;
    while items != {}
      invariant items <= holdsDict.Keys
      invariant forall p :: p in tempList ==> p.1 in holdsDict && p.0 == holdsDict[p.1]
      invariant forall h :: h in holdsDict.Keys - items ==> (holdsDict[h], h) in tempList
      decreases |items|
    {
      var key :| key in items;
      tempList := tempList + [(holdsDict[key], key)];
      items := items - {key};
    }
  }
}
