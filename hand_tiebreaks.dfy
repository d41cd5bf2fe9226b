/** What the tie-break list of each category holds: the defining ranks first,
    picked in the order the code meets them, then the largest remaining
    ranks in non-increasing order. */
module HandTieBreaks {
  import opened Wrappers
  import opened Cards
  import opened Sorting
  import opened HandEvaluator
  import opened HandProperties
  import opened HandCategory

  // ---------------------------------------------------------------------------
  // Counter order is order of first appearance

  /** A key listed no later than the key of s[p] already occurs in s at or
      before position p. */
  lemma {:induction false} CounterFirstSeen<T>(s: seq<T>, i: nat, j: nat, p: nat)
    requires p < |s| && i <= j < |Counter(s)| && Counter(s)[j].0 == s[p]
    ensures Counter(s)[i].0 in s[..p + 1]
    decreases |s|
  {
    var init := s[..|s| - 1];
    var last := s[|s| - 1];
    CounterSnoc(s);
    var c0 := Counter(init);
    if p < |s| - 1 || last in Keys(c0) {
      var q := EarlierPosition(s, p, c0);
      var j0 := InKeys(c0, init[q]);
      BumpKeepsIndex(c0, last, j0, j);
      CounterFirstSeen(init, i, j0, q);
      BumpKeepsKey(c0, last, i);
      PrefixGrows(s, q, p);
    } else {
      assert s[..p + 1] == s;
      if i < |c0| {
        BumpKeepsKey(c0, last, i);
        assert c0[i].0 in init;
      }
    }
  }

  /** A position before the last one holding the element at p, when there is
      one. */
  lemma EarlierPosition<T>(s: seq<T>, p: nat, c0: seq<(T, nat)>) returns (q: nat)
    requires p < |s| && c0 == Counter(s[..|s| - 1])
    requires p < |s| - 1 || s[|s| - 1] in Keys(c0)
    ensures q <= p && q < |s| - 1 && s[q] == s[p]
  {
    if p < |s| - 1 {
      q := p;
    } else {
      var init := s[..|s| - 1];
      CounterCounts(init);
      KeysOfCounter(c0, init);
      q :| 0 <= q < |init| && init[q] == s[p];
    }
  }

  lemma PrefixGrows<T>(s: seq<T>, q: nat, p: nat)
    requires q <= p < |s| && q < |s| - 1
    ensures s[..|s| - 1][..q + 1] <= s[..p + 1]
  {
    assert s[..|s| - 1][..q + 1] == s[..p + 1][..q + 1];
  }

  lemma CounterSnoc<T>(s: seq<T>)
    requires s != []
    ensures Counter(s) == Bump(Counter(s[..|s| - 1]), s[|s| - 1])
  {
  }

  /** Bumping keeps every existing key at its index. */
  lemma BumpKeepsKey<T>(c: seq<(T, nat)>, x: T, i: nat)
    requires NoDup(Keys(c)) && i < |c|
    ensures i < |Bump(c, x)| && Bump(c, x)[i].0 == c[i].0
  {
  }

  /** An index of the bumped Counter holding an existing key is that key's
      old index. */
  lemma BumpKeepsIndex<T>(c: seq<(T, nat)>, x: T, i: nat, j: nat)
    requires NoDup(Keys(c)) && i < |c| && j < |Bump(c, x)| && Bump(c, x)[j].0 == c[i].0
    ensures i == j
  {
    var r := Bump(c, x);
    BumpKeepsKey(c, x, i);
    assert Keys(r)[i] == Keys(r)[j];
  }

  /** The entry `[key for key, count in counter.items() if count == k][0]`
      picks is, among the elements occurring k times, the one that occurs
      first: it already occurs at or before every position holding such an
      element. */
  lemma FirstWithCountSeenFirst<T>(s: seq<T>, k: nat)
    requires HasCount(Counter(s), k)
    ensures var c := Counter(s);
      forall p :: 0 <= p < |s| && multiset(s)[s[p]] == k ==> c[FirstWithCount(c, k)].0 in s[..p + 1]
  {
    var c := Counter(s);
    var i := FirstWithCount(c, k);
    forall p | 0 <= p < |s| && multiset(s)[s[p]] == k
      ensures c[i].0 in s[..p + 1]
    {
      var j := InKeys(c, s[p]);
      CounterFirstSeen(s, i, j, p);
    }
  }

  /** The same for `count >= k`. */
  lemma FirstWithCountAtLeastSeenFirst<T>(s: seq<T>, k: nat)
    requires exists i :: 0 <= i < |Counter(s)| && Counter(s)[i].1 >= k
    ensures var c := Counter(s);
      forall p :: 0 <= p < |s| && multiset(s)[s[p]] >= k ==> c[FirstWithCountAtLeast(c, k)].0 in s[..p + 1]
  {
    var c := Counter(s);
    var i := FirstWithCountAtLeast(c, k);
    forall p | 0 <= p < |s| && multiset(s)[s[p]] >= k
      ensures c[i].0 in s[..p + 1]
    {
      var j := InKeys(c, s[p]);
      CounterFirstSeen(s, i, j, p);
    }
  }

  // ---------------------------------------------------------------------------
  // The tie-break list of each category

  /** `get_best_four_of_a_kind`: it raises exactly for four cards;
      otherwise the rank held four times, then the largest other rank held. */
  lemma FourOfAKindTieBreak(rc: seq<(Rank, nat)>, ranks: seq<Rank>)
    requires CountsOf(rc, ranks) && IsFourOfAKind(rc)
    ensures var held: seq<int> := ranks;
      var r := GetBestFourOfAKind(rc);
      (r.None? <==> |ranks| == 4)
      && (r.Some? ==>
        |r.value| == 2 && multiset(held)[r.value[0]] == 4 && r.value[1] in held && r.value[1] != r.value[0]
        && forall x :: x in held && x != r.value[0] ==> x <= r.value[1])
  {
    FourOfAKindKicker(rc, ranks);
    FourOfAKindRaises(rc, ranks);
  }

  lemma FourOfAKindKicker(rc: seq<(Rank, nat)>, ranks: seq<Rank>)
    requires CountsOf(rc, ranks) && IsFourOfAKind(rc)
    ensures var held: seq<int> := ranks;
      GetBestFourOfAKind(rc).Some? ==>
        var t := GetBestFourOfAKind(rc).value;
        |t| == 2 && multiset(held)[t[0]] == 4 && t[1] in held && t[1] != t[0]
        && forall x :: x in held && x != t[0] ==> x <= t[1]
  {
    KeysOfCounter(rc, ranks);
    GetBestFourOfAKindSpec(rc);
  }

  /** The rank `get_best_four_of_a_kind` puts first is the first rank met
      four times. */
  lemma FourOfAKindFirstMet(ranks: seq<Rank>)
    requires IsFourOfAKind(Counter(ranks))
    requires GetBestFourOfAKind(Counter(ranks)).Some?
    ensures var held: seq<int> := ranks;
      var q := GetBestFourOfAKind(Counter(ranks)).value[0];
      forall p :: 0 <= p < |held| && multiset(held)[held[p]] == 4 ==> q in held[..p + 1]
  {
    FourOfAKindLeads(Counter(ranks));
    FirstWithCountSeenFirst(ranks, 4);
  }

  lemma FourOfAKindLeads(rc: seq<(Rank, nat)>)
    requires IsFourOfAKind(rc) && GetBestFourOfAKind(rc).Some?
    ensures GetBestFourOfAKind(rc).value[0] == rc[FirstWithCount(rc, 4)].0
  {
  }

  /** `get_best_full_house`: the first rank met three times, then the first
      rank met exactly twice; neither need be the highest such rank. */
  lemma FullHouseTieBreak(ranks: seq<Rank>)
    requires IsFullHouse(Counter(ranks))
    ensures var t := GetBestFullHouse(Counter(ranks));
      var held: seq<int> := ranks;
      |t| == 2 && multiset(held)[t[0]] == 3 && multiset(held)[t[1]] == 2
      && (forall p :: 0 <= p < |held| && multiset(held)[held[p]] == 3 ==> t[0] in held[..p + 1])
      && forall p :: 0 <= p < |held| && multiset(held)[held[p]] == 2 ==> t[1] in held[..p + 1]
  {
    FirstWithCountSeenFirst(ranks, 3);
    FirstWithCountSeenFirst(ranks, 2);
  }

  /** The ranks of one suit number as many as the cards of that suit. */
  lemma {:induction false} SuitedRanksCount(cards: seq<Card>, st: Suit)
    ensures |SuitedRanks(cards, st)| == multiset(Suits(cards))[st]
  {
    if cards != [] {
      SuitedRanksCount(cards[1..], st);
      assert Suits(cards) == [cards[0].suit] + Suits(cards[1..]);
    }
  }

  /** `get_best_flush`: five ranks, the largest of the flush suit in
      non-increasing order, where the flush suit is the first suit met with
      five cards. */
  lemma FlushTieBreak(cards: seq<Card>)
    requires IsFlush(Counter(Suits(cards)))
    ensures var t := GetBestFlush(cards);
      var st := FlushSuit(cards);
      var suits := Suits(cards);
      |t| == 5 && IsTopK(t, SuitedRanks(cards, st), 5)
      && multiset(suits)[st] >= 5
      && forall p :: 0 <= p < |suits| && multiset(suits)[suits[p]] >= 5 ==> st in suits[..p + 1]
  {
    var st := FlushSuit(cards);
    SuitedRanksCount(cards, st);
    TakeSortDescIsTopK(SuitedRanks(cards, st), 5);
    FirstWithCountAtLeastSeenFirst(Suits(cards), 5);
  }

  /** The kickers after the defining rank q: the n largest of the other
      ranks, largest first, and q is not among them. */
  lemma KickersOf(ranks: seq<int>, q: int, t: seq<int>, n: nat)
    requires t == [q] + Take(SortDesc(Without(ranks, q)), n)
    ensures IsTopK(t[1..], Without(ranks, q), n) && q !in t[1..]
  {
    assert t[1..] == Take(SortDesc(Without(ranks, q)), n);
    TakeSortDescIsTopK(Without(ranks, q), n);
    KickersExclude(t[1..], Without(ranks, q), q);
  }

  /** `get_best_three_of_a_kind`: the first rank met three times, then the
      two largest of the other ranks, largest first. */
  lemma ThreeOfAKindTieBreak(rc: seq<(Rank, nat)>, ranks: seq<Rank>)
    requires CountsOf(rc, ranks) && IsThreeOfAKind(rc)
    ensures var t := GetBestThreeOfAKind(rc, ranks);
      var held: seq<int> := ranks;
      |t| >= 1 && multiset(held)[t[0]] == 3
      && IsTopK(t[1..], Without(held, t[0]), 2) && t[0] !in t[1..]
  {
    var q := rc[FirstWithCount(rc, 3)].0;
    KickersOf(ranks, q, GetBestThreeOfAKind(rc, ranks), 2);
  }

  /** The rank `get_best_three_of_a_kind` puts first is the first rank met
      three times. */
  lemma ThreeOfAKindFirstMet(ranks: seq<Rank>)
    requires IsThreeOfAKind(Counter(ranks))
    ensures var t := GetBestThreeOfAKind(Counter(ranks), ranks);
      var held: seq<int> := ranks;
      forall p :: 0 <= p < |held| && multiset(held)[held[p]] == 3 ==> t[0] in held[..p + 1]
  {
    ThreeOfAKindLeads(Counter(ranks), ranks);
    FirstWithCountSeenFirst(ranks, 3);
  }

  lemma ThreeOfAKindLeads(rc: seq<(Rank, nat)>, ranks: seq<Rank>)
    requires IsThreeOfAKind(rc)
    ensures GetBestThreeOfAKind(rc, ranks)[0] == rc[FirstWithCount(rc, 3)].0
  {
  }

  /** Kickers taken from a list without x do not contain x. */
  lemma KickersExclude(k: seq<int>, rest: seq<int>, x: int)
    requires multiset(k) <= multiset(rest) && multiset(rest)[x] == 0
    ensures x !in k
  {
    assert multiset(k)[x] == 0;
  }

  /** `get_best_two_pair`: it raises exactly for four cards; otherwise the
      two largest pair ranks, larger first, then the largest rank in neither
      pair. */
  lemma TwoPairTieBreak(rc: seq<(Rank, nat)>, ranks: seq<Rank>)
    requires CountsOf(rc, ranks) && IsTwoPair(rc)
    ensures var held: seq<int> := ranks;
      var r := GetBestTwoPair(rc, ranks);
      (r.None? <==> |ranks| == 4)
      && (r.Some? ==>
        |r.value| == 3 && r.value[0] > r.value[1]
        && multiset(held)[r.value[0]] == 2 && multiset(held)[r.value[1]] == 2
        && (forall x :: x in held && multiset(held)[x] == 2 && x != r.value[0] && x != r.value[1] ==> x < r.value[1])
        && r.value[2] in held && r.value[2] != r.value[0] && r.value[2] != r.value[1]
        && forall x :: x in held && x != r.value[0] && x != r.value[1] ==> x <= r.value[2])
  {
    IsTwoPairIff(rc, ranks);
    TwoPairRaises(rc, ranks);
    var pairs := Take(SortDesc(PairKeys(rc)), 2);
    TopPairs(rc, ranks);
    if NotIn(ranks, pairs) != [] {
      var rest := NotIn(ranks, pairs);
      KickerIsMax(ranks, pairs, rest, MaxOf(rest));
      TwoPairShape(ranks, pairs, rest, GetBestTwoPair(rc, ranks).value);
    }
  }

  /** The list built from the two pair ranks and the kicker. */
  lemma TwoPairShape(ranks: seq<int>, pairs: seq<int>, rest: seq<int>, t: seq<int>)
    requires |pairs| == 2 && pairs[0] > pairs[1] && rest != [] && t == pairs + [MaxOf(rest)]
    requires multiset(ranks)[pairs[0]] == 2 && multiset(ranks)[pairs[1]] == 2
    requires forall x :: x in ranks && multiset(ranks)[x] == 2 && x !in pairs ==> x < pairs[1]
    requires MaxOf(rest) in ranks && MaxOf(rest) != pairs[0] && MaxOf(rest) != pairs[1]
    requires forall x :: x in ranks && x != pairs[0] && x != pairs[1] ==> x <= MaxOf(rest)
    ensures |t| == 3 && t[0] > t[1] && multiset(ranks)[t[0]] == 2 && multiset(ranks)[t[1]] == 2
    ensures forall x :: x in ranks && multiset(ranks)[x] == 2 && x != t[0] && x != t[1] ==> x < t[1]
    ensures t[2] in ranks && t[2] != t[0] && t[2] != t[1]
    ensures forall x :: x in ranks && x != t[0] && x != t[1] ==> x <= t[2]
  {
    forall x | x in ranks && multiset(ranks)[x] == 2 && x != t[0] && x != t[1] ensures x < t[1] {
      assert x !in pairs;
    }
  }
  /** The largest rank outside the two pair ranks is at least every such
      rank. */
  lemma KickerIsMax(ranks: seq<int>, pairs: seq<int>, rest: seq<int>, k: int)
    requires |pairs| == 2
    requires forall y :: multiset(rest)[y] == if y in pairs then 0 else multiset(ranks)[y]
    requires k in rest && forall y :: y in rest ==> y <= k
    ensures k in ranks && k != pairs[0] && k != pairs[1]
    ensures forall x :: x in ranks && x != pairs[0] && x != pairs[1] ==> x <= k
  {
    assert k in multiset(rest);
    forall x | x in ranks && x != pairs[0] && x != pairs[1] ensures x <= k {
      assert x !in pairs;
      assert x in multiset(ranks);
      assert x in multiset(rest);
      assert x in rest;
    }
  }

  /** `get_best_one_pair`: the first rank met exactly twice, then the three
      largest of the other ranks, largest first. */
  lemma OnePairTieBreak(rc: seq<(Rank, nat)>, ranks: seq<Rank>)
    requires CountsOf(rc, ranks) && IsOnePair(rc)
    ensures var t := GetBestOnePair(rc, ranks);
      var held: seq<int> := ranks;
      |t| >= 1 && multiset(held)[t[0]] == 2
      && IsTopK(t[1..], Without(held, t[0]), 3) && t[0] !in t[1..]
  {
    var q := rc[FirstWithCount(rc, 2)].0;
    KickersOf(ranks, q, GetBestOnePair(rc, ranks), 3);
  }

  /** The rank `get_best_one_pair` puts first is the first rank met exactly
      twice. */
  lemma OnePairFirstMet(ranks: seq<Rank>)
    requires IsOnePair(Counter(ranks))
    ensures var t := GetBestOnePair(Counter(ranks), ranks);
      var held: seq<int> := ranks;
      forall p :: 0 <= p < |held| && multiset(held)[held[p]] == 2 ==> t[0] in held[..p + 1]
  {
    OnePairLeads(Counter(ranks), ranks);
    FirstWithCountSeenFirst(ranks, 2);
  }

  lemma OnePairLeads(rc: seq<(Rank, nat)>, ranks: seq<Rank>)
    requires IsOnePair(rc)
    ensures GetBestOnePair(rc, ranks)[0] == rc[FirstWithCount(rc, 2)].0
  {
  }
}
