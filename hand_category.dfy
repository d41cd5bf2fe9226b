/** The score `evaluate_hand` returns, stated against a reference chain that
    uses only how often each rank and suit occurs; when the code raises; and
    that reordering the cards changes neither. */
module HandCategory {
  import opened Wrappers
  import opened Cards
  import opened Sorting
  import opened HandEvaluator
  import opened HandProperties

  /** The category of a collection of cards, strongest first: 9 straight
      flush, 8 four of a kind, 7 a rank three times and a rank exactly twice,
      6 five of one suit, 5 straight, 4 three of a kind, 3 two pairs, 2 one
      pair, 1 high card. */
  ghost function SpecCategory(cards: seq<Card>): int {
    var ranks := Ranks(cards);
    if SpecStraightFlush(cards) then 9
    else if SomeCount(ranks, 4) then 8
    else if SomeCount(ranks, 3) && SomeCount(ranks, 2) then 7
    else if SomeCountAtLeast(Suits(cards), 5) then 6
    else if SpecStraight(ranks) then 5
    else if SomeCount(ranks, 3) then 4
    else if TwoPairsIn(ranks) then 3
    else if SomeCount(ranks, 2) then 2
    else 1
  }

  /** A Counter's keys are the elements of the list. */
  lemma KeysOfCounter<T>(c: seq<(T, nat)>, s: seq<T>)
    requires CountsOf(c, s)
    ensures forall x :: x in Keys(c) <==> x in s
  {
    forall x ensures x in Keys(c) <==> x in s {
      if x in Keys(c) {
        var i := InKeys(c, x);
      }
      if x in s {
        var p :| 0 <= p < |s| && s[p] == x;
      }
    }
  }

  lemma RanksLength(cards: seq<Card>)
    ensures |Ranks(cards)| == |cards|
  {
  }

  /** `get_best_four_of_a_kind`: with q the first rank counted 4, the code
      raises exactly when q is the only rank, and otherwise returns q and the
      largest other rank. */
  lemma GetBestFourOfAKindSpec(rc: seq<(Rank, nat)>)
    requires IsFourOfAKind(rc)
    ensures var q := rc[FirstWithCount(rc, 4)].0;
      match GetBestFourOfAKind(rc)
      case None => forall x :: x in Keys(rc) ==> x == q
      case Some(t) =>
        |t| == 2 && t[0] == q && t[1] != q && t[1] in Keys(rc)
        && forall x :: x in Keys(rc) && x != q ==> x <= t[1]
  {
    var q := rc[FirstWithCount(rc, 4)].0;
    var others := Without(Keys(rc), q);
    if others == [] {
      forall x | x in Keys(rc) ensures x == q {
        assert x in multiset(Keys(rc));
        assert multiset(others)[x] == 0;
      }
    } else {
      var k := MaxOf(others);
      assert k in multiset(others);
      forall x | x in Keys(rc) && x != q ensures x <= k {
        assert x in multiset(Keys(rc));
        assert x in multiset(others);
        assert x in others;
      }
    }
  }

  /** With four of a kind, `max` of the other ranks raises exactly when the
      cards are those four and nothing else. */
  lemma FourOfAKindRaises(rc: seq<(Rank, nat)>, ranks: seq<Rank>)
    requires CountsOf(rc, ranks) && IsFourOfAKind(rc)
    ensures GetBestFourOfAKind(rc).None? <==> |ranks| == 4
  {
    var q := rc[FirstWithCount(rc, 4)].0;
    assert multiset(ranks)[q] == 4;
    GetBestFourOfAKindSpec(rc);
    AllSame(ranks, q);
    KeysOfCounter(rc, ranks);
  }

  /** A sequence holding two different values has at least two elements. */
  lemma TwoMembers(s: seq<int>, a: int, b: int)
    requires a in s && b in s && a != b
    ensures |s| >= 2
  {
  }

  /** The two largest of at least two different values: larger first, both
      taken from s, and nothing else in s above the second. */
  lemma TopTwo(s: seq<int>)
    requires NoDup(s) && |s| >= 2
    ensures var p := Take(SortDesc(s), 2);
      |p| == 2 && p[0] > p[1] && p[0] in s && p[1] in s
      && forall x :: x in s && x !in p ==> x < p[1]
  {
    var sd := SortDesc(s);
    assert Take(sd, 2) == sd[..2];
    TopTwoOfSorted(sd, s);
  }

  lemma TopTwoOfSorted(sd: seq<int>, s: seq<int>)
    requires NoDup(s) && NonIncreasing(sd) && multiset(sd) == multiset(s) && |sd| >= 2
    ensures sd[0] > sd[1] && sd[0] in s && sd[1] in s
    ensures forall x :: x in s && x != sd[0] && x != sd[1] ==> x < sd[1]
  {
    assert sd == [sd[0], sd[1]] + sd[2..];
    assert sd[0] != sd[1] by {
      NoDupCount(s, sd[0]);
      assert multiset(sd) == multiset{sd[0], sd[1]} + multiset(sd[2..]);
    }
    assert sd[0] in multiset(sd) && sd[1] in multiset(sd);
    forall x | x in s && x != sd[0] && x != sd[1] ensures x < sd[1] {
      assert x in multiset(sd);
      var k :| 0 <= k < |sd| && sd[k] == x;
    }
  }

  /** `sorted(pair ranks, reverse=True)[:2]` for a hand with two pairs: two
      different ranks held exactly twice, larger first, and no other rank
      held exactly twice exceeds the second. */
  lemma TopPairs(rc: seq<(Rank, nat)>, ranks: seq<Rank>)
    requires CountsOf(rc, ranks) && TwoPairsIn(ranks)
    ensures var pairs := Take(SortDesc(PairKeys(rc)), 2);
      var held: seq<int> := ranks;
      |pairs| == 2 && pairs[0] > pairs[1]
      && multiset(held)[pairs[0]] == 2 && multiset(held)[pairs[1]] == 2
      && forall x :: x in held && multiset(held)[x] == 2 && x !in pairs ==> x < pairs[1]
  {
    var pk := PairKeys(rc);
    var a, b :| a in ranks && b in ranks && a != b && multiset(ranks)[a] == 2 && multiset(ranks)[b] == 2;
    PairKeysOfRanks(rc, ranks, a);
    PairKeysOfRanks(rc, ranks, b);
    TwoMembers(pk, a, b);
    PairKeysNoDup(rc);
    TopTwo(pk);
    var pairs := Take(SortDesc(pk), 2);
    PairKeysOfRanks(rc, ranks, pairs[0]);
    PairKeysOfRanks(rc, ranks, pairs[1]);
    forall x | x in ranks && multiset(ranks)[x] == 2 && x !in pairs
      ensures x < pairs[1]
    {
      PairKeysOfRanks(rc, ranks, x);
    }
  }

  /** `[r for r in s if r not in xs]` is empty exactly when every element of s
      is in xs. */
  lemma NotInEmpty(s: seq<int>, xs: seq<int>)
    ensures NotIn(s, xs) == [] <==> forall y :: y in s ==> y in xs
  {
    var rest := NotIn(s, xs);
    if rest == [] {
      forall y | y in s ensures y in xs {
        assert y in multiset(s);
        assert multiset(rest)[y] == 0;
      }
    } else {
      var y := rest[0];
      assert multiset(rest)[y] > 0;
      assert y !in xs && multiset(s)[y] > 0;
      assert y in s;
    }
  }

  /** With two pairs, `max` of the ranks outside both pairs raises exactly
      when the cards are the two pairs and nothing else. */
  lemma TwoPairRaises(rc: seq<(Rank, nat)>, ranks: seq<Rank>)
    requires CountsOf(rc, ranks) && TwoPairsIn(ranks)
    ensures GetBestTwoPair(rc, ranks).None? <==> |ranks| == 4
  {
    var pairs := Take(SortDesc(PairKeys(rc)), 2);
    TopPairs(rc, ranks);
    TwoPairNone(rc, ranks);
    OnlyTwoValuesLeft(ranks, pairs);
  }

  lemma TwoPairNone(rc: seq<(Rank, nat)>, ranks: seq<Rank>)
    ensures GetBestTwoPair(rc, ranks).None? <==> NotIn(ranks, Take(SortDesc(PairKeys(rc)), 2)) == []
  {
  }

  /** Removing two values held twice each leaves nothing exactly when there
      were four elements. */
  lemma OnlyTwoValuesLeft(s: seq<int>, pairs: seq<int>)
    requires |pairs| == 2 && pairs[0] != pairs[1]
    requires multiset(s)[pairs[0]] == 2 && multiset(s)[pairs[1]] == 2
    ensures NotIn(s, pairs) == [] <==> |s| == 4
  {
    var a, b := pairs[0], pairs[1];
    NotInEmpty(s, pairs);
    TwoValues(s, a, b);
    assert pairs == [a, b];
    if NotIn(s, pairs) == [] {
      forall y | y in s ensures y == a || y == b {
        assert y in pairs;
      }
    }
    if |s| == 4 {
      forall y | y in s ensures y in pairs {
        assert y == a || y == b;
      }
    }
  }

  /** The score is the reference category, and the code raises exactly for
      four cards that are four of a kind or two pairs. */
  lemma EvaluateHandScore(hand: seq<Card>, community: seq<Card>)
    ensures var r := EvaluateHand(hand, community);
      r.Ok? ==> r.value.score == SpecCategory(hand + community)
    ensures var r := EvaluateHand(hand, community);
      var k := SpecCategory(hand + community);
      r.Err? <==> |hand + community| == 4 && (k == 8 || k == 3)
  {
    var cards := hand + community;
    var ranks := Ranks(cards);
    var rc := Counter(ranks);
    var sc := Counter(Suits(cards));
    CounterCounts(ranks);
    CounterCounts(Suits(cards));
    IsStraightFlushIff(cards);
    HasCountIff(rc, ranks, 4);
    HasCountIff(rc, ranks, 3);
    HasCountIff(rc, ranks, 2);
    IsFlushIff(sc, Suits(cards));
    IsStraightIff(ranks);
    IsTwoPairIff(rc, ranks);
    RanksLength(cards);
    if !IsStraightFlush(cards) && IsFourOfAKind(rc) {
      FourOfAKindRaises(rc, ranks);
    }
    if TwoPairsIn(ranks) {
      TwoPairRaises(rc, ranks);
    }
  }

  /** Every hand of at least five cards is scored without raising. */
  lemma EvaluateHandTotal(hand: seq<Card>, community: seq<Card>)
    requires |hand + community| >= 5
    ensures EvaluateHand(hand, community).Ok?
  {
    EvaluateHandScore(hand, community);
  }

  /** Two ranks three times each and no rank exactly twice is not a full
      house, since `is_full_house` wants a count of exactly 2: such a hand
      never scores 7, and without a straight flush, four of a kind, a flush
      or a straight it scores 4, three of a kind. */
  lemma TwoTriplesNoFullHouse(hand: seq<Card>, community: seq<Card>, a: Rank, b: Rank)
    requires a != b
    requires multiset(Ranks(hand + community))[a] == 3 && multiset(Ranks(hand + community))[b] == 3
    requires !SomeCount(Ranks(hand + community), 2)
    ensures EvaluateHand(hand, community).Ok?
    ensures EvaluateHand(hand, community).value.score != 7
    ensures var cards := hand + community;
      (!SpecStraightFlush(cards) && !SomeCount(Ranks(cards), 4) && !SomeCountAtLeast(Suits(cards), 5)
       && !SpecStraight(Ranks(cards)))
      ==> EvaluateHand(hand, community).value.score == 4
  {
    var cards := hand + community;
    TwoValuesBound(Ranks(cards), a, b);
    RanksLength(cards);
    EvaluateHandTotal(hand, community);
    EvaluateHandScore(hand, community);
    assert a in Ranks(cards);
  }
  // ---------------------------------------------------------------------------
  // Reordering the cards

  lemma ProjectionsAppend(a: seq<Card>, b: seq<Card>)
    ensures Ranks(a + b) == Ranks(a) + Ranks(b)
    ensures Suits(a + b) == Suits(a) + Suits(b)
  {
  }

  /** Cards that are a permutation of each other have ranks and suits that
      are permutations of each other. */
  lemma PermutedProjections(a: seq<Card>, b: seq<Card>)
    requires multiset(a) == multiset(b)
    ensures multiset(Ranks(a)) == multiset(Ranks(b))
    ensures multiset(Suits(a)) == multiset(Suits(b))
  {
    PermutedRanks(a, b);
    PermutedSuits(a, b);
  }

  /** Where the first card of a sits in its permutation b. */
  lemma SplitAt(a: seq<Card>, b: seq<Card>) returns (b1: seq<Card>, b2: seq<Card>)
    requires multiset(a) == multiset(b) && a != []
    ensures b == b1 + [a[0]] + b2
    ensures multiset(a[1..]) == multiset(b1 + b2)
  {
    var x := a[0];
    assert x in multiset(b);
    var k :| 0 <= k < |b| && b[k] == x;
    b1, b2 := b[..k], b[k + 1..];
    assert b == b1 + [x] + b2;
    assert a == [x] + a[1..];
    assert multiset(a[1..]) == multiset(a) - multiset{x};
    assert multiset(b1 + b2) == multiset(b) - multiset{x};
  }

  lemma {:induction false} PermutedRanks(a: seq<Card>, b: seq<Card>)
    requires multiset(a) == multiset(b)
    ensures multiset(Ranks(a)) == multiset(Ranks(b))
    decreases |a|
  {
    if a == [] {
      assert |b| == |multiset(b)| == 0;
    } else {
      var b1, b2 := SplitAt(a, b);
      PermutedRanks(a[1..], b1 + b2);
      assert Ranks(a) == [a[0].rank] + Ranks(a[1..]);
      assert Ranks(b) == Ranks(b1) + [a[0].rank] + Ranks(b2);
      assert Ranks(b1 + b2) == Ranks(b1) + Ranks(b2);
    }
  }

  lemma {:induction false} PermutedSuits(a: seq<Card>, b: seq<Card>)
    requires multiset(a) == multiset(b)
    ensures multiset(Suits(a)) == multiset(Suits(b))
    decreases |a|
  {
    if a == [] {
      assert |b| == |multiset(b)| == 0;
    } else {
      var b1, b2 := SplitAt(a, b);
      PermutedSuits(a[1..], b1 + b2);
      assert Suits(a) == [a[0].suit] + Suits(a[1..]);
      assert Suits(b) == Suits(b1) + [a[0].suit] + Suits(b2);
      assert Suits(b1 + b2) == Suits(b1) + Suits(b2);
    }
  }

  /** Count facts depend only on the multiset. */
  lemma SameCounts<T>(s: seq<T>, t: seq<T>)
    requires multiset(s) == multiset(t)
    ensures forall k: nat :: SomeCount(s, k) <==> SomeCount(t, k)
    ensures forall k: nat :: SomeCountAtLeast(s, k) <==> SomeCountAtLeast(t, k)
    ensures TwoPairsIn(s) <==> TwoPairsIn(t)
  {
    forall x ensures x in s <==> x in t {
      assert x in s <==> x in multiset(s);
      assert x in t <==> x in multiset(t);
    }
  }

  /** Straight facts depend only on which ranks occur. */
  lemma SameStraight(s: seq<int>, t: seq<int>)
    requires multiset(s) == multiset(t)
    ensures SpecStraight(s) <==> SpecStraight(t)
  {
    forall x ensures x in s <==> x in t {
      assert x in s <==> x in multiset(s);
      assert x in t <==> x in multiset(t);
    }
    SameMembers(s, t);
  }

  lemma SameStraightFlush(a: seq<Card>, b: seq<Card>)
    requires multiset(a) == multiset(b)
    requires multiset(Suits(a)) == multiset(Suits(b))
    ensures SpecStraightFlush(a) <==> SpecStraightFlush(b)
  {
    forall st: Suit ensures SpecStraight(SuitedRanks(a, st)) <==> SpecStraight(SuitedRanks(b, st)) {
      forall x ensures x in SuitedRanks(a, st) <==> x in SuitedRanks(b, st) {
        assert Card(x, st) in a <==> Card(x, st) in multiset(a);
        assert Card(x, st) in b <==> Card(x, st) in multiset(b);
      }
      SameMembers(SuitedRanks(a, st), SuitedRanks(b, st));
    }
  }

  /** The reference category sees the cards only through the multiset. */
  lemma SpecCategoryPermuted(a: seq<Card>, b: seq<Card>)
    requires multiset(a) == multiset(b)
    ensures SpecCategory(a) == SpecCategory(b)
  {
    PermutedProjections(a, b);
    SameCounts(Ranks(a), Ranks(b));
    SameCounts(Suits(a), Suits(b));
    SameStraight(Ranks(a), Ranks(b));
    SameStraightFlush(a, b);
  }

  /** Reordering the cards, or moving cards between the hand and the
      community cards, changes neither whether the code raises nor the
      score. */
  lemma EvaluateHandPermuted(hand: seq<Card>, community: seq<Card>, hand': seq<Card>, community': seq<Card>)
    requires multiset(hand + community) == multiset(hand' + community')
    ensures EvaluateHand(hand, community).Ok? <==> EvaluateHand(hand', community').Ok?
    ensures EvaluateHand(hand, community).Ok? ==>
      EvaluateHand(hand, community).value.score == EvaluateHand(hand', community').value.score
  {
    EvaluateHandScore(hand, community);
    EvaluateHandScore(hand', community');
    SpecCategoryPermuted(hand + community, hand' + community');
    assert |hand + community| == |multiset(hand + community)|;
    assert |hand' + community'| == |multiset(hand' + community')|;
  }
}
