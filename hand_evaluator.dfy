/** The hand evaluator: hole cards plus community cards to a score 1..9 and a
    list of tie-break ranks. Categories are tried from strongest to weakest and
    the first that matches decides; the tie-break helpers reproduce the code's
    first-encountered picks and its lowest-run straight. */
module HandEvaluator {
  import opened Wrappers
  import opened Cards
  import opened Sorting

  // ---------------------------------------------------------------------------
  // Card projections and the Counter

  /** `[card[0] for card in all_cards]` */
  function Ranks(cards: seq<Card>): seq<Rank> {
    seq(|cards|, i requires 0 <= i < |cards| => cards[i].rank)
  }

  /** `[card[1] for card in all_cards]` */
  function Suits(cards: seq<Card>): seq<Suit> {
    seq(|cards|, i requires 0 <= i < |cards| => cards[i].suit)
  }

  /** `[card[0] for card in all_cards if card[1] == suit]` */
  function SuitedRanks(cards: seq<Card>, suit: Suit): (r: seq<Rank>)
    ensures forall x :: x in r <==> Card(x, suit) in cards
  {
    if cards == [] then []
    else
      var rest := SuitedRanks(cards[1..], suit);
      assert cards == [cards[0]] + cards[1..];
      if cards[0].suit == suit then [cards[0].rank] + rest else rest
  }

  /** The keys of a Counter, in its iteration order. */
  function Keys<T>(c: seq<(T, nat)>): seq<T> {
    seq(|c|, i requires 0 <= i < |c| => c[i].0)
  }

  /** The values of a Counter, in its iteration order. */
  function Values<T>(c: seq<(T, nat)>): seq<nat> {
    seq(|c|, i requires 0 <= i < |c| => c[i].1)
  }

  /** Counts one more occurrence of x: an existing key keeps its place, a new
      key goes to the end. */
  function Bump<T(==)>(c: seq<(T, nat)>, x: T): (r: seq<(T, nat)>)
    requires NoDup(Keys(c))
    ensures NoDup(Keys(r))
    ensures x in Keys(c) ==> |r| == |c| && forall i :: 0 <= i < |c| ==>
      r[i].0 == c[i].0 && r[i].1 == c[i].1 + (if c[i].0 == x then 1 else 0)
    ensures x !in Keys(c) ==> r == c + [(x, 1)]
  {
    if c == [] then [(x, 1)]
    else if c[0].0 == x then
      var r := [(x, c[0].1 + 1)] + c[1..];
      BumpFront(c, x, r);
      r
    else
      TailNoDup(c);
      var tail := Bump(c[1..], x);
      var r := [c[0]] + tail;
      BumpBehind(c, x, tail, r);
      r
  }

  lemma TailKeys<T>(c: seq<(T, nat)>)
    requires c != []
    ensures Keys(c) == [c[0].0] + Keys(c[1..])
  {
  }

  lemma TailNoDup<T>(c: seq<(T, nat)>)
    requires c != [] && NoDup(Keys(c))
    ensures NoDup(Keys(c[1..]))
  {
    assert Keys(c[1..]) == Keys(c)[1..];
  }

  /** Bumping the first key adds one to its count in place. */
  lemma BumpFront<T>(c: seq<(T, nat)>, x: T, r: seq<(T, nat)>)
    requires NoDup(Keys(c)) && c != [] && c[0].0 == x && r == [(x, c[0].1 + 1)] + c[1..]
    ensures NoDup(Keys(r)) && x in Keys(c)
    ensures |r| == |c| && forall i :: 0 <= i < |c| ==>
      r[i].0 == c[i].0 && r[i].1 == c[i].1 + (if c[i].0 == x then 1 else 0)
  {
    assert Keys(r) == Keys(c);
    assert Keys(c)[0] == x;
    forall i | 1 <= i < |c| ensures c[i].0 != x {
      assert Keys(c)[0] != Keys(c)[i];
    }
  }

  /** Bumping a key other than the first bumps it in the tail. */
  lemma BumpBehind<T>(c: seq<(T, nat)>, x: T, tail: seq<(T, nat)>, r: seq<(T, nat)>)
    requires NoDup(Keys(c)) && c != [] && c[0].0 != x && r == [c[0]] + tail
    requires NoDup(Keys(tail))
    requires x in Keys(c[1..]) ==> |tail| == |c| - 1 && forall i :: 0 <= i < |c| - 1 ==>
      tail[i].0 == c[1..][i].0 && tail[i].1 == c[1..][i].1 + (if c[1..][i].0 == x then 1 else 0)
    requires x !in Keys(c[1..]) ==> tail == c[1..] + [(x, 1)]
    ensures NoDup(Keys(r))
    ensures x in Keys(c) ==> |r| == |c| && forall i :: 0 <= i < |c| ==>
      r[i].0 == c[i].0 && r[i].1 == c[i].1 + (if c[i].0 == x then 1 else 0)
    ensures x !in Keys(c) ==> r == c + [(x, 1)]
  {
    TailKeys(c);
    TailKeys(r);
    assert x in Keys(c) <==> x in Keys(c[1..]);
    assert c[0].0 !in Keys(tail) by {
      forall i | 0 <= i < |tail| ensures tail[i].0 != c[0].0 {
        if i < |c| - 1 {
          assert Keys(c)[0] != Keys(c)[i + 1];
        }
      }
    }
    if x !in Keys(c) {
      assert c == [c[0]] + c[1..];
    }
  }

  /** `collections.Counter(s)`: each distinct element once, in order of first
      appearance, with the number of times it occurs. */
  function Counter<T(==)>(s: seq<T>): (c: seq<(T, nat)>)
    ensures NoDup(Keys(c))
    ensures forall i :: 0 <= i < |c| ==> c[i].0 in s && c[i].1 == multiset(s)[c[i].0]
    ensures forall i :: 0 <= i < |s| ==> s[i] in Keys(c)
  {
    if s == [] then []
    else
      var init := s[..|s| - 1];
      var last := s[|s| - 1];
      assert s == init + [last];
      var c0 := Counter(init);
      var c := Bump(c0, last);
      CounterStep(init, last, c0, c);
      c
  }

  /** Counting one more element keeps the Counter describing the list. */
  lemma CounterStep<T>(init: seq<T>, last: T, c0: seq<(T, nat)>, c: seq<(T, nat)>)
    requires NoDup(Keys(c0)) && c == Bump(c0, last)
    requires forall i :: 0 <= i < |c0| ==> c0[i].0 in init && c0[i].1 == multiset(init)[c0[i].0]
    requires forall i :: 0 <= i < |init| ==> init[i] in Keys(c0)
    ensures forall i :: 0 <= i < |c| ==> c[i].0 in init + [last] && c[i].1 == multiset(init + [last])[c[i].0]
    ensures forall i :: 0 <= i < |init + [last]| ==> (init + [last])[i] in Keys(c)
  {
    StepCounts(init, last, c0, c);
    StepCovers(init, last, c0, c);
  }

  lemma StepCounts<T>(init: seq<T>, last: T, c0: seq<(T, nat)>, c: seq<(T, nat)>)
    requires NoDup(Keys(c0)) && c == Bump(c0, last)
    requires forall i :: 0 <= i < |c0| ==> c0[i].0 in init && c0[i].1 == multiset(init)[c0[i].0]
    requires forall i :: 0 <= i < |init| ==> init[i] in Keys(c0)
    ensures forall i :: 0 <= i < |c| ==> c[i].0 in init + [last] && c[i].1 == multiset(init + [last])[c[i].0]
  {
    if last in Keys(c0) {
      StepCountsOld(init, last, c0, c);
    } else {
      StepCountsNew(init, last, c0, c);
    }
  }

  /** Counting a key already present adds one to its entry. */
  lemma StepCountsOld<T>(init: seq<T>, last: T, c0: seq<(T, nat)>, c: seq<(T, nat)>)
    requires |c| == |c0| && forall i :: 0 <= i < |c0| ==>
      c[i].0 == c0[i].0 && c[i].1 == c0[i].1 + (if c0[i].0 == last then 1 else 0)
    requires forall i :: 0 <= i < |c0| ==> c0[i].0 in init && c0[i].1 == multiset(init)[c0[i].0]
    ensures forall i :: 0 <= i < |c| ==> c[i].0 in init + [last] && c[i].1 == multiset(init + [last])[c[i].0]
  {
    assert multiset(init + [last]) == multiset(init) + multiset{last};
  }

  /** Counting a new key appends it with count one. */
  lemma StepCountsNew<T>(init: seq<T>, last: T, c0: seq<(T, nat)>, c: seq<(T, nat)>)
    requires last !in Keys(c0) && c == c0 + [(last, 1)]
    requires forall i :: 0 <= i < |c0| ==> c0[i].0 in init && c0[i].1 == multiset(init)[c0[i].0]
    requires forall i :: 0 <= i < |init| ==> init[i] in Keys(c0)
    ensures forall i :: 0 <= i < |c| ==> c[i].0 in init + [last] && c[i].1 == multiset(init + [last])[c[i].0]
  {
    var s := init + [last];
    assert multiset(s) == multiset(init) + multiset{last};
    assert last !in init;
    forall i | 0 <= i < |c| ensures c[i].0 in s && c[i].1 == multiset(s)[c[i].0] {
      if i < |c0| {
        assert c[i] == c0[i];
        assert Keys(c0)[i] == c0[i].0;
      } else {
        assert s[|init|] == last;
      }
    }
  }

  lemma StepCovers<T>(init: seq<T>, last: T, c0: seq<(T, nat)>, c: seq<(T, nat)>)
    requires NoDup(Keys(c0)) && c == Bump(c0, last)
    requires forall i :: 0 <= i < |init| ==> init[i] in Keys(c0)
    ensures forall i :: 0 <= i < |init + [last]| ==> (init + [last])[i] in Keys(c)
  {
    BumpKeys(c0, last);
    CoversStep(init, last, Keys(c0), Keys(c));
  }

  /** Bumping keeps the keys and appends a new one. */
  lemma BumpKeys<T>(c0: seq<(T, nat)>, x: T)
    requires NoDup(Keys(c0))
    ensures Keys(Bump(c0, x)) == if x in Keys(c0) then Keys(c0) else Keys(c0) + [x]
  {
  }

  lemma CoversStep<T>(init: seq<T>, last: T, k0: seq<T>, k: seq<T>)
    requires forall i :: 0 <= i < |init| ==> init[i] in k0
    requires k == k0 || k == k0 + [last]
    requires last in k
    ensures forall i :: 0 <= i < |init + [last]| ==> (init + [last])[i] in k
  {
    forall i | 0 <= i < |init + [last]| ensures (init + [last])[i] in k {
      if i < |init| {
        assert (init + [last])[i] == init[i];
        assert init[i] in k0;
      }
    }
  }

  /** `k in counter.values()` */
  predicate HasCount<T>(c: seq<(T, nat)>, k: nat) {
    exists i :: 0 <= i < |c| && c[i].1 == k
  }

  /** Index of `[key for key, count in counter.items() if count == k][0]`. */
  function FirstWithCount<T>(c: seq<(T, nat)>, k: nat): (i: nat)
    requires HasCount(c, k)
    ensures i < |c| && c[i].1 == k
    ensures forall j :: 0 <= j < i ==> c[j].1 != k
  {
    if c[0].1 == k then 0
    else
      assert HasCount(c[1..], k) by {
        var i :| 0 <= i < |c| && c[i].1 == k;
        assert c[1..][i - 1].1 == k;
      }
      1 + FirstWithCount(c[1..], k)
  }

  /** Index of `[key for key, count in counter.items() if count >= k][0]`. */
  function FirstWithCountAtLeast<T>(c: seq<(T, nat)>, k: nat): (i: nat)
    requires exists i :: 0 <= i < |c| && c[i].1 >= k
    ensures i < |c| && c[i].1 >= k
    ensures forall j :: 0 <= j < i ==> c[j].1 < k
  {
    if c[0].1 >= k then 0
    else
      assert exists i :: 0 <= i < |c[1..]| && c[1..][i].1 >= k by {
        var i :| 0 <= i < |c| && c[i].1 >= k;
        assert c[1..][i - 1].1 >= k;
      }
      1 + FirstWithCountAtLeast(c[1..], k)
  }

  /** `[r for r in s if r != x]` */
  function Without(s: seq<int>, x: int): (r: seq<int>)
    ensures forall y :: multiset(r)[y] == if y == x then 0 else multiset(s)[y]
  {
    if s == [] then []
    else
      assert s == [s[0]] + s[1..];
      if s[0] != x then [s[0]] + Without(s[1..], x) else Without(s[1..], x)
  }

  /** `[r for r in s if r not in xs]` */
  function NotIn(s: seq<int>, xs: seq<int>): (r: seq<int>)
    ensures forall y :: multiset(r)[y] == if y in xs then 0 else multiset(s)[y]
  {
    if s == [] then []
    else
      assert s == [s[0]] + s[1..];
      if s[0] !in xs then [s[0]] + NotIn(s[1..], xs) else NotIn(s[1..], xs)
  }

  // ---------------------------------------------------------------------------
  // Category tests (hand_evaluator.py:72-184)

  /** Python's `sorted(set(ranks))`: the distinct ranks, ascending. Ranks lie in
      2..14, so keeping those of 2..14 that occur gives that list. */
  function UniqueSorted(ranks: seq<Rank>): (u: seq<int>)
    ensures forall i, j :: 0 <= i < j < |u| ==> u[i] < u[j]
    ensures forall x :: x in u <==> x in ranks
  {
    UpFrom(2, ranks)
  }

  function UpFrom(k: int, ranks: seq<Rank>): (u: seq<int>)
    requires 2 <= k <= 15
    ensures forall i, j :: 0 <= i < j < |u| ==> u[i] < u[j]
    ensures forall x :: x in u <==> x in ranks && x >= k
    decreases 15 - k
  {
    if k == 15 then []
    else if k in ranks then
      var rest := UpFrom(k + 1, ranks);
      assert forall j :: 0 <= j < |rest| ==> rest[j] > k by {
        forall j | 0 <= j < |rest| ensures rest[j] > k {
          assert rest[j] in rest;
        }
      }
      [k] + rest
    else UpFrom(k + 1, ranks)
  }

  /** `list(range(a, b))` */
  function Range(a: int, b: int): seq<int>
    requires a <= b
  {
    seq(b - a, k => a + k)
  }

  /** The window test `u[i:i+5] == list(range(u[i], u[i]+5))`. */
  predicate RunAt(u: seq<int>, i: nat)
    requires i + 5 <= |u|
  {
    u[i..i + 5] == Range(u[i], u[i] + 5)
  }

  /** The scan `for i in range(len(u) - 4)` from index i: the first window that
      is a run. */
  function FirstRun(u: seq<int>, i: nat): (r: Option<nat>)
    ensures r.Some? ==> i <= r.value && r.value + 5 <= |u| && RunAt(u, r.value)
    ensures r.Some? ==> forall j :: i <= j < r.value ==> !RunAt(u, j)
    ensures r.None? ==> forall j :: i <= j && j + 5 <= |u| ==> !RunAt(u, j)
    decreases |u| - i
  {
    if i + 5 > |u| then None
    else if RunAt(u, i) then Some(i)
    else FirstRun(u, i + 1)
  }

  /** `set([14, 2, 3, 4, 5]).issubset(u)` */
  predicate HasWheel(u: seq<int>) {
    14 in u && 2 in u && 3 in u && 4 in u && 5 in u
  }

  /** `is_straight(ranks)` */
  predicate IsStraight(ranks: seq<Rank>) {
    var u := UniqueSorted(ranks);
    if |u| < 5 then false
    else if FirstRun(u, 0).Some? then true
    else HasWheel(u)
  }

  /** The loop of `is_straight_flush` over `suit_counts.items()` from entry sc. */
  predicate AnySuitedStraight(cards: seq<Card>, sc: seq<(Suit, nat)>) {
    sc != [] &&
    ((sc[0].1 >= 5 && IsStraight(SuitedRanks(cards, sc[0].0))) || AnySuitedStraight(cards, sc[1..]))
  }

  /** `is_straight_flush(all_cards)` */
  predicate IsStraightFlush(cards: seq<Card>) {
    AnySuitedStraight(cards, Counter(Suits(cards)))
  }

  /** `is_four_of_a_kind(rank_counts)` */
  predicate IsFourOfAKind(rc: seq<(Rank, nat)>) {
    HasCount(rc, 4)
  }

  /** `is_full_house(rank_counts)`: a count of exactly 3 and one of exactly 2. */
  predicate IsFullHouse(rc: seq<(Rank, nat)>) {
    HasCount(rc, 3) && HasCount(rc, 2)
  }

  /** `is_flush(suit_counts)` */
  predicate IsFlush(sc: seq<(Suit, nat)>) {
    exists i :: 0 <= i < |sc| && sc[i].1 >= 5
  }

  /** `is_three_of_a_kind(rank_counts)` */
  predicate IsThreeOfAKind(rc: seq<(Rank, nat)>) {
    HasCount(rc, 3)
  }

  /** `is_two_pair(rank_counts)`: `list(values).count(2) >= 2`. */
  predicate IsTwoPair(rc: seq<(Rank, nat)>) {
    multiset(Values(rc))[2] >= 2
  }

  /** `is_one_pair(rank_counts)` */
  predicate IsOnePair(rc: seq<(Rank, nat)>) {
    HasCount(rc, 2)
  }

  // ---------------------------------------------------------------------------
  // Tie-break helpers (hand_evaluator.py:186-303)

  /** Python's `u[start:stop:-1]` for 0 <= start < |u| and -|u| <= stop < |u|:
      a negative stop counts from the end. */
  function SliceBackward(u: seq<int>, start: int, stop: int): (r: seq<int>)
    requires 0 <= start < |u| && -|u| <= stop < |u|
  {
    var lo := if stop < 0 then stop + |u| else stop;
    if lo >= start then [] else seq(start - lo, k requires 0 <= k < start - lo => u[start - k])
  }

  /** `get_high_card(ranks)` */
  function GetHighCard(ranks: seq<Rank>): (r: seq<int>)
    ensures NonIncreasing(r) && multiset(r) == multiset(ranks)
  {
    SortDesc(ranks)
  }

  /** `get_best_straight(ranks)`: the window of the first (lowest) run read
      backwards with stop `i - 1`, else the wheel, else nothing. */
  function GetBestStraight(ranks: seq<Rank>): seq<int> {
    var u := UniqueSorted(ranks);
    match FirstRun(u, 0)
    case Some(i) => SliceBackward(u, i + 4, i - 1)
    case None => if HasWheel(u) then [5, 4, 3, 2, 14] else []
  }

  /** `get_best_four_of_a_kind(rank_counts)`: the first rank counted 4 and the
      largest other rank; None where `max` of no ranks would raise. */
  function GetBestFourOfAKind(rc: seq<(Rank, nat)>): Option<seq<int>>
    requires IsFourOfAKind(rc)
  {
    var q := rc[FirstWithCount(rc, 4)].0;
    var others := Without(Keys(rc), q);
    if others == [] then None else Some([q, MaxOf(others)])
  }

  /** `get_best_full_house(rank_counts)`: the first rank counted 3 and the
      first rank counted 2. */
  function GetBestFullHouse(rc: seq<(Rank, nat)>): seq<int>
    requires IsFullHouse(rc)
  {
    [rc[FirstWithCount(rc, 3)].0, rc[FirstWithCount(rc, 2)].0]
  }

  /** The suit of `get_best_flush`: the first suit counted at least 5. */
  function FlushSuit(cards: seq<Card>): (s: Suit)
    requires IsFlush(Counter(Suits(cards)))
    ensures multiset(Suits(cards))[s] >= 5
  {
    var sc := Counter(Suits(cards));
    sc[FirstWithCountAtLeast(sc, 5)].0
  }

  /** `get_best_flush(all_cards)`: the five largest ranks of the flush suit. */
  function GetBestFlush(cards: seq<Card>): seq<int>
    requires IsFlush(Counter(Suits(cards)))
  {
    Take(SortDesc(SuitedRanks(cards, FlushSuit(cards))), 5)
  }

  /** `get_best_three_of_a_kind(rank_counts, all_ranks)`: the first rank
      counted 3, then the two largest other ranks. */
  function GetBestThreeOfAKind(rc: seq<(Rank, nat)>, ranks: seq<Rank>): seq<int>
    requires IsThreeOfAKind(rc)
  {
    var t := rc[FirstWithCount(rc, 3)].0;
    [t] + Take(SortDesc(Without(ranks, t)), 2)
  }

  /** The ranks counted 2, in Counter order. */
  function PairKeys(rc: seq<(Rank, nat)>): (r: seq<int>)
    ensures forall x :: x in r <==> exists i :: 0 <= i < |rc| && rc[i] == (x, 2)
  {
    if rc == [] then []
    else
      var rest := PairKeys(rc[1..]);
      assert forall i :: 0 < i < |rc| ==> rc[i] == rc[1..][i - 1];
      if rc[0].1 == 2 then [rc[0].0] + rest else rest
  }

  /** `get_best_two_pair(rank_counts, all_ranks)`: the two largest pair ranks,
      then the largest rank in neither; None where `max` would raise. */
  function GetBestTwoPair(rc: seq<(Rank, nat)>, ranks: seq<Rank>): Option<seq<int>> {
    var pairs := Take(SortDesc(PairKeys(rc)), 2);
    var rest := NotIn(ranks, pairs);
    if rest == [] then None else Some(pairs + [MaxOf(rest)])
  }

  /** `get_best_one_pair(rank_counts, all_ranks)`: the first rank counted 2,
      then the three largest other ranks. */
  function GetBestOnePair(rc: seq<(Rank, nat)>, ranks: seq<Rank>): seq<int>
    requires IsOnePair(rc)
  {
    var p := rc[FirstWithCount(rc, 2)].0;
    [p] + Take(SortDesc(Without(ranks, p)), 3)
  }

  // ---------------------------------------------------------------------------
  // evaluate_hand (hand_evaluator.py:31-69)

  datatype Evaluation = Evaluation(score: int, tieBreak: seq<int>)

  const EMPTY_MAX := "max() arg is an empty sequence"

  /** `evaluate_hand(hand, community_cards)`: the tests from strongest to
      weakest, the first that holds giving the score and its helper the
      tie-break list; Err where that helper raises. */
  function EvaluateHand(hand: seq<Card>, community: seq<Card>): (r: Result<Evaluation>)
    ensures r.Ok? ==> 1 <= r.value.score <= 9
  {
    var cards := hand + community;
    var ranks := Ranks(cards);
    var rc := Counter(ranks);
    var sc := Counter(Suits(cards));
    if IsStraightFlush(cards) then Ok(Evaluation(9, GetBestStraight(ranks)))
    else if IsFourOfAKind(rc) then
      match GetBestFourOfAKind(rc)
      case Some(t) => Ok(Evaluation(8, t))
      case None => Err(EMPTY_MAX)
    else if IsFullHouse(rc) then Ok(Evaluation(7, GetBestFullHouse(rc)))
    else if IsFlush(sc) then Ok(Evaluation(6, GetBestFlush(cards)))
    else if IsStraight(ranks) then Ok(Evaluation(5, GetBestStraight(ranks)))
    else if IsThreeOfAKind(rc) then Ok(Evaluation(4, GetBestThreeOfAKind(rc, ranks)))
    else if IsTwoPair(rc) then
      match GetBestTwoPair(rc, ranks)
      case Some(t) => Ok(Evaluation(3, t))
      case None => Err(EMPTY_MAX)
    else if IsOnePair(rc) then Ok(Evaluation(2, GetBestOnePair(rc, ranks)))
    else Ok(Evaluation(1, GetHighCard(ranks)))
  }
}
