/** What the hand evaluator's results mean, stated against definitions that
    use only how many cards of each rank and suit a hand holds. */
module HandProperties {
  import opened Wrappers
  import opened Cards
  import opened Sorting
  import opened HandEvaluator

  // ---------------------------------------------------------------------------
  // Straights

  predicate StrictlyIncreasing(u: seq<int>) {
    forall i, j :: 0 <= i < j < |u| ==> u[i] < u[j]
  }

  /** The five consecutive ranks r, r+1, ..., r+4 all occur. */
  predicate FiveFrom(ranks: seq<int>, r: int) {
    r in ranks && r + 1 in ranks && r + 2 in ranks && r + 3 in ranks && r + 4 in ranks
  }

  /** r starts a run of five and no run starts lower. */
  ghost predicate LowestRunAt(ranks: seq<int>, r: int) {
    FiveFrom(ranks, r) && forall x :: FiveFrom(ranks, x) ==> r <= x
  }

  /** The reference definition of a straight: five consecutive ranks, or the
      ace-low wheel A-2-3-4-5. */
  ghost predicate SpecStraight(ranks: seq<int>) {
    (exists r :: FiveFrom(ranks, r)) || HasWheel(ranks)
  }

  lemma {:induction false} IndexGap(u: seq<int>, i: nat, j: nat)
    requires StrictlyIncreasing(u) && i <= j < |u|
    ensures u[j] - u[i] >= j - i
    decreases j - i
  {
    if i < j {
      IndexGap(u, i + 1, j);
    }
  }

  /** In a strictly increasing sequence the window test amounts to a span of
      exactly four, and then the window holds consecutive values. */
  lemma RunAtIff(u: seq<int>, i: nat)
    requires StrictlyIncreasing(u) && i + 5 <= |u|
    ensures RunAt(u, i) <==> u[i + 4] == u[i] + 4
    ensures RunAt(u, i) ==> forall j :: i <= j < i + 5 ==> u[j] == u[i] + (j - i)
  {
    var rg := Range(u[i], u[i] + 5);
    if RunAt(u, i) {
      forall j | i <= j < i + 5 ensures u[j] == u[i] + (j - i) {
        assert u[i..i + 5][j - i] == rg[j - i];
      }
    }
    if u[i + 4] == u[i] + 4 {
      forall k | 0 <= k < 5 ensures u[i..i + 5][k] == rg[k] {
        IndexGap(u, i, i + k);
        IndexGap(u, i + k, i + 4);
      }
    }
  }

  /** Among strictly increasing values, a smaller value sits at a smaller index. */
  lemma IndexOrder(u: seq<int>, a: nat, b: nat)
    requires StrictlyIncreasing(u) && a < |u| && b < |u| && u[a] < u[b]
    ensures a < b
  {
  }

  /** Five consecutive values present in a strictly increasing sequence occupy
      five consecutive positions, which the window scan recognises. */
  lemma FiveGivesRun(u: seq<int>, r: int) returns (i: nat)
    requires StrictlyIncreasing(u) && FiveFrom(u, r)
    ensures i + 5 <= |u| && u[i] == r && RunAt(u, i)
  {
    var i0 :| 0 <= i0 < |u| && u[i0] == r;
    var i1 :| 0 <= i1 < |u| && u[i1] == r + 1;
    var i2 :| 0 <= i2 < |u| && u[i2] == r + 2;
    var i3 :| 0 <= i3 < |u| && u[i3] == r + 3;
    var i4 :| 0 <= i4 < |u| && u[i4] == r + 4;
    IndexOrder(u, i0, i1);
    IndexOrder(u, i1, i2);
    IndexOrder(u, i2, i3);
    IndexOrder(u, i3, i4);
    IndexGap(u, i0, i4);
    i := i0;
    assert i4 == i + 4;
    RunAtIff(u, i);
  }

  lemma WheelNeedsFive(u: seq<int>)
    requires StrictlyIncreasing(u) && HasWheel(u)
    ensures |u| >= 5
  {
    var i2 :| 0 <= i2 < |u| && u[i2] == 2;
    var i3 :| 0 <= i3 < |u| && u[i3] == 3;
    var i4 :| 0 <= i4 < |u| && u[i4] == 4;
    var i5 :| 0 <= i5 < |u| && u[i5] == 5;
    var i14 :| 0 <= i14 < |u| && u[i14] == 14;
    IndexOrder(u, i2, i3);
    IndexOrder(u, i3, i4);
    IndexOrder(u, i4, i5);
    IndexOrder(u, i5, i14);
  }

  /** When the scan finds no window, no five consecutive values occur. */
  lemma NoRunNoFive(u: seq<int>, x: int)
    requires StrictlyIncreasing(u) && FirstRun(u, 0).None?
    ensures !FiveFrom(u, x)
  {
    if FiveFrom(u, x) {
      var j := FiveGivesRun(u, x);
    }
  }

  /** The window the scan finds starts at the lowest run. */
  lemma FoundRunIsLowest(u: seq<int>, i: nat)
    requires StrictlyIncreasing(u) && FirstRun(u, 0) == Some(i)
    ensures LowestRunAt(u, u[i])
    ensures forall j :: i <= j < i + 5 ==> u[j] == u[i] + (j - i)
  {
    RunAtIff(u, i);
    assert FiveFrom(u, u[i]) by {
      assert u[i + 1] in u && u[i + 2] in u && u[i + 3] in u && u[i + 4] in u;
    }
    forall x | FiveFrom(u, x) ensures u[i] <= x {
      var j := FiveGivesRun(u, x);
    }
  }

  /** Only membership matters to FiveFrom and HasWheel. */
  lemma SameMembers(a: seq<int>, b: seq<int>)
    requires forall x :: x in a <==> x in b
    ensures forall x :: FiveFrom(a, x) <==> FiveFrom(b, x)
    ensures forall x :: LowestRunAt(a, x) <==> LowestRunAt(b, x)
    ensures HasWheel(a) <==> HasWheel(b)
  {
  }

  /** `is_straight` holds exactly when five consecutive ranks or the wheel
      occur. */
  lemma IsStraightIff(ranks: seq<Rank>)
    ensures IsStraight(ranks) <==> SpecStraight(ranks)
  {
    var u := UniqueSorted(ranks);
    SameMembers(u, ranks);
    if HasWheel(u) {
      WheelNeedsFive(u);
    }
    match FirstRun(u, 0)
    case None =>
      forall x ensures !FiveFrom(ranks, x) {
        NoRunNoFive(u, x);
      }
    case Some(i) =>
      FoundRunIsLowest(u, i);
  }

  /** `get_best_straight` with no run of five: the wheel if it is held,
      otherwise nothing. */
  lemma GetBestStraightNoRun(ranks: seq<Rank>)
    requires forall x :: !FiveFrom(ranks, x)
    ensures GetBestStraight(ranks) == if HasWheel(ranks) then [5, 4, 3, 2, 14] else []
  {
    var u := UniqueSorted(ranks);
    SameMembers(u, ranks);
    match FirstRun(u, 0)
    case None =>
    case Some(i) =>
      FoundRunIsLowest(u, i);
      assert false;
  }

  /** The backward slice `u[i+4:i-1:-1]` over a run found at index i. */
  lemma SliceOfRun(u: seq<int>, i: nat)
    requires i + 5 <= |u|
    requires forall j :: i <= j < i + 5 ==> u[j] == u[i] + (j - i)
    ensures SliceBackward(u, i + 4, i - 1) ==
      if i == 0 then [] else [u[i] + 4, u[i] + 3, u[i] + 2, u[i] + 1, u[i]]
  {
    var r := SliceBackward(u, i + 4, i - 1);
    if i > 0 {
      assert |r| == 5;
      forall k | 0 <= k < 5 ensures r[k] == u[i] + 4 - k {
        assert r[k] == u[i + 4 - k];
      }
    }
  }

  lemma GetBestStraightFound(ranks: seq<Rank>, i: nat)
    requires FirstRun(UniqueSorted(ranks), 0) == Some(i)
    ensures GetBestStraight(ranks) == SliceBackward(UniqueSorted(ranks), i + 4, i - 1)
  {
    var u := UniqueSorted(ranks);
    assert FirstRun(u, 0).Some? && FirstRun(u, 0).value == i;
  }

  /** `get_best_straight` for the lowest run, starting at t: the ranks t+4
      down to t, except that the slice stop `i - 1` wraps round to the end of
      the list and yields nothing when t is the smallest rank held. */
  lemma GetBestStraightLowest(ranks: seq<Rank>, t: int)
    requires LowestRunAt(ranks, t)
    ensures GetBestStraight(ranks) ==
      if forall x :: x in ranks ==> t <= x then [] else [t + 4, t + 3, t + 2, t + 1, t]
  {
    var u := UniqueSorted(ranks);
    SameMembers(u, ranks);
    match FirstRun(u, 0)
    case None =>
      NoRunNoFive(u, t);
      assert false;
    case Some(i) =>
      FoundRunIsLowest(u, i);
      assert t == u[i];
      GetBestStraightFound(ranks, i);
      SliceOfRun(u, i);
      if i == 0 {
        forall x | x in ranks ensures t <= x {
          assert x in u;
          var j :| 0 <= j < |u| && u[j] == x;
        }
      } else {
        assert u[0] in ranks && u[0] < t;
      }
  }

  /** Whenever some run of five occurs, a lowest one does. */
  lemma LowestRunExists(ranks: seq<Rank>, x: int)
    requires FiveFrom(ranks, x)
    ensures exists t :: LowestRunAt(ranks, t)
  {
    var u := UniqueSorted(ranks);
    SameMembers(u, ranks);
    match FirstRun(u, 0)
    case None =>
      NoRunNoFive(u, x);
    case Some(i) =>
      FoundRunIsLowest(u, i);
  }

  /** Without a straight `get_best_straight` returns nothing. */
  lemma GetBestStraightNone(ranks: seq<Rank>)
    requires !IsStraight(ranks)
    ensures GetBestStraight(ranks) == []
  {
    IsStraightIff(ranks);
    GetBestStraightNoRun(ranks);
  }

  // ---------------------------------------------------------------------------
  // Counts

  /** Some element occurs exactly k times. */
  ghost predicate SomeCount<T>(s: seq<T>, k: nat) {
    exists x :: x in s && multiset(s)[x] == k
  }

  /** Some element occurs at least k times. */
  ghost predicate SomeCountAtLeast<T>(s: seq<T>, k: nat) {
    exists x :: x in s && multiset(s)[x] >= k
  }

  /** Two different elements each occur exactly twice. */
  ghost predicate TwoPairsIn<T>(s: seq<T>) {
    exists a, b :: a in s && b in s && a != b && multiset(s)[a] == 2 && multiset(s)[b] == 2
  }

  /** c describes s as `collections.Counter(s)` does: each distinct element
      of s once, with the number of times it occurs. */
  ghost predicate CountsOf<T>(c: seq<(T, nat)>, s: seq<T>) {
    NoDup(Keys(c))
    && (forall i :: 0 <= i < |c| ==> c[i].0 in s && c[i].1 == multiset(s)[c[i].0])
    && (forall p :: 0 <= p < |s| ==> s[p] in Keys(c))
  }

  /** The modelled Counter meets that description. */
  lemma CounterCounts<T>(s: seq<T>)
    ensures CountsOf(Counter(s), s)
  {
  }

  lemma InKeys<T>(c: seq<(T, nat)>, x: T) returns (i: nat)
    requires x in Keys(c)
    ensures i < |c| && c[i].0 == x
  {
    i :| 0 <= i < |Keys(c)| && Keys(c)[i] == x;
  }

  /** `k in Counter(s).values()` holds exactly when some element of s occurs
      k times. */
  lemma HasCountIff<T>(c: seq<(T, nat)>, s: seq<T>, k: nat)
    requires CountsOf(c, s)
    ensures HasCount(c, k) <==> SomeCount(s, k)
  {
    if SomeCount(s, k) {
      var x :| x in s && multiset(s)[x] == k;
      var p :| 0 <= p < |s| && s[p] == x;
      var i := InKeys(c, x);
    }
  }

  /** `any(count >= 5 for count in Counter(s).values())` holds exactly when some
      element of s occurs at least five times. */
  lemma IsFlushIff(c: seq<(Suit, nat)>, s: seq<Suit>)
    requires CountsOf(c, s)
    ensures IsFlush(c) <==> SomeCountAtLeast(s, 5)
  {
    if SomeCountAtLeast(s, 5) {
      var x :| x in s && multiset(s)[x] >= 5;
      var p :| 0 <= p < |s| && s[p] == x;
      var i := InKeys(c, x);
    }
  }

  /** A value occurs twice or more exactly when two positions hold it. */
  lemma {:induction false} TwoPositions(v: seq<nat>, x: nat)
    ensures multiset(v)[x] >= 2 <==> exists i, j :: 0 <= i < j < |v| && v[i] == x && v[j] == x
  {
    if v != [] {
      var rest := v[1..];
      assert v == [v[0]] + rest;
      TwoPositions(rest, x);
      if multiset(v)[x] >= 2 {
        if v[0] == x {
          assert x in multiset(rest);
          var j :| 0 <= j < |rest| && rest[j] == x;
          assert v[j + 1] == x;
        } else {
          var i, j :| 0 <= i < j < |rest| && rest[i] == x && rest[j] == x;
          assert v[i + 1] == x && v[j + 1] == x;
        }
      }
      if i, j :| 0 <= i < j < |v| && v[i] == x && v[j] == x {
        if i == 0 {
          assert rest[j - 1] == x;
          assert x in multiset(rest);
        } else {
          assert rest[i - 1] == x && rest[j - 1] == x;
        }
      }
    }
  }

  /** `list(Counter(s).values()).count(2) >= 2` holds exactly when two
      different elements of s occur twice each. */
  lemma IsTwoPairIff(c: seq<(Rank, nat)>, s: seq<Rank>)
    requires CountsOf(c, s)
    ensures IsTwoPair(c) <==> TwoPairsIn(s)
  {
    var v := Values(c);
    TwoPositions(v, 2);
    if IsTwoPair(c) {
      var i, j :| 0 <= i < j < |v| && v[i] == 2 && v[j] == 2;
      assert Keys(c)[i] != Keys(c)[j];
      assert c[i].0 in s && c[j].0 in s;
    }
    if TwoPairsIn(s) {
      var a, b :| a in s && b in s && a != b && multiset(s)[a] == 2 && multiset(s)[b] == 2;
      var pa :| 0 <= pa < |s| && s[pa] == a;
      var pb :| 0 <= pb < |s| && s[pb] == b;
      var ia := InKeys(c, a);
      var ib := InKeys(c, b);
      if ia < ib {
        assert v[ia] == 2 && v[ib] == 2;
      } else {
        assert v[ib] == 2 && v[ia] == 2;
      }
    }
  }

  /** The loop of `is_straight_flush` finds an entry of at least five cards
      whose ranks make a straight. */
  lemma {:induction false} AnySuitedStraightIff(cards: seq<Card>, sc: seq<(Suit, nat)>)
    ensures AnySuitedStraight(cards, sc) <==>
      exists i :: 0 <= i < |sc| && sc[i].1 >= 5 && IsStraight(SuitedRanks(cards, sc[i].0))
  {
    if sc != [] {
      AnySuitedStraightIff(cards, sc[1..]);
      if i :| 0 <= i < |sc| && sc[i].1 >= 5 && IsStraight(SuitedRanks(cards, sc[i].0)) {
        if i > 0 {
          assert sc[1..][i - 1] == sc[i];
        }
      }
      if AnySuitedStraight(cards, sc[1..]) {
        var i :| 0 <= i < |sc[1..]| && sc[1..][i].1 >= 5 && IsStraight(SuitedRanks(cards, sc[1..][i].0));
        assert sc[i + 1] == sc[1..][i];
      }
    }
  }

  /** The reference definition of a straight flush: some suit has five or more
      cards and the ranks of that suit make a straight. */
  ghost predicate SpecStraightFlush(cards: seq<Card>) {
    exists s: Suit :: multiset(Suits(cards))[s] >= 5 && SpecStraight(SuitedRanks(cards, s))
  }

  /** `is_straight_flush` holds exactly for the reference straight flush. */
  lemma IsStraightFlushIff(cards: seq<Card>)
    ensures IsStraightFlush(cards) <==> SpecStraightFlush(cards)
  {
    var sc := Counter(Suits(cards));
    CounterCounts(Suits(cards));
    AnySuitedStraightIff(cards, sc);
    SuitedStraightIff(cards, sc);
  }

  /** For a Counter sc of the suits, some entry of five or more cards whose
      ranks make a straight exists exactly for the reference straight flush. */
  lemma SuitedStraightIff(cards: seq<Card>, sc: seq<(Suit, nat)>)
    requires CountsOf(sc, Suits(cards))
    ensures (exists i :: 0 <= i < |sc| && sc[i].1 >= 5 && IsStraight(SuitedRanks(cards, sc[i].0)))
      <==> SpecStraightFlush(cards)
  {
    var suits := Suits(cards);
    if i :| 0 <= i < |sc| && sc[i].1 >= 5 && IsStraight(SuitedRanks(cards, sc[i].0)) {
      IsStraightIff(SuitedRanks(cards, sc[i].0));
    }
    if SpecStraightFlush(cards) {
      var st: Suit :| multiset(suits)[st] >= 5 && SpecStraight(SuitedRanks(cards, st));
      assert st in multiset(suits);
      var p :| 0 <= p < |suits| && suits[p] == st;
      var i := InKeys(sc, st);
      IsStraightIff(SuitedRanks(cards, st));
    }
  }

  // ---------------------------------------------------------------------------
  // Small facts about counting

  /** x accounts for every element exactly when its count is the length. */
  lemma {:induction false} AllSame<T>(s: seq<T>, x: T)
    ensures multiset(s)[x] == |s| <==> forall y :: y in s ==> y == x
  {
    if s != [] {
      var t := s[1..];
      assert s == [s[0]] + t;
      AllSame(t, x);
      CountBound(t, x);
      assert multiset(s)[x] == multiset(t)[x] + (if s[0] == x then 1 else 0);
      if multiset(s)[x] == |s| {
        assert s[0] == x && multiset(t)[x] == |t|;
        forall y | y in s ensures y == x {
          assert y == s[0] || y in t;
        }
      }
      if forall y :: y in s ==> y == x {
        assert s[0] in s;
        assert forall y :: y in t ==> y in s;
      }
    }
  }

  lemma {:induction false} CountBound<T>(s: seq<T>, x: T)
    ensures multiset(s)[x] <= |s|
  {
    if s != [] {
      assert s == [s[0]] + s[1..];
      CountBound(s[1..], x);
    }
  }

  /** Two different values a and b account for every element exactly when
      their counts add up to the length. */
  lemma {:induction false} TwoValues<T>(s: seq<T>, a: T, b: T)
    requires a != b
    ensures multiset(s)[a] + multiset(s)[b] == |s| <==> forall y :: y in s ==> y == a || y == b
  {
    if s != [] {
      assert s == [s[0]] + s[1..];
      TwoValues(s[1..], a, b);
      TwoValuesBound(s[1..], a, b);
      var t := s[1..];
      assert multiset(s)[a] == multiset(t)[a] + (if s[0] == a then 1 else 0);
      assert multiset(s)[b] == multiset(t)[b] + (if s[0] == b then 1 else 0);
      if multiset(s)[a] + multiset(s)[b] == |s| {
        forall y | y in s ensures y == a || y == b {
          if y != s[0] { assert y in t; }
        }
      }
      if forall y :: y in s ==> y == a || y == b {
        assert s[0] in s;
        assert forall y :: y in t ==> y in s;
      }
    }
  }

  lemma {:induction false} TwoValuesBound<T>(s: seq<T>, a: T, b: T)
    requires a != b
    ensures multiset(s)[a] + multiset(s)[b] <= |s|
  {
    if s != [] {
      assert s == [s[0]] + s[1..];
      TwoValuesBound(s[1..], a, b);
    }
  }

  /** In a sequence without repetitions nothing occurs twice. */
  lemma {:induction false} NoDupCount<T>(s: seq<T>, x: T)
    requires NoDup(s)
    ensures multiset(s)[x] <= 1
  {
    if s != [] {
      assert s == [s[0]] + s[1..];
      NoDupCount(s[1..], x);
      if s[0] == x {
        assert x !in s[1..] by {
          forall j | 0 <= j < |s[1..]| ensures s[1..][j] != x {
            assert s[0] != s[j + 1];
          }
        }
      }
    }
  }

  lemma {:induction false} PairKeysNoDup(rc: seq<(Rank, nat)>)
    requires NoDup(Keys(rc))
    ensures NoDup(PairKeys(rc))
  {
    if rc != [] {
      assert Keys(rc[1..]) == Keys(rc)[1..];
      PairKeysNoDup(rc[1..]);
      if rc[0].1 == 2 {
        forall i | 0 <= i < |rc[1..]| ensures rc[1..][i].0 != rc[0].0 {
          assert Keys(rc)[0] != Keys(rc)[i + 1];
        }
        assert rc[0].0 !in PairKeys(rc[1..]);
      }
    }
  }

  /** A Counter of the ranks reports each rank held with its number of
      copies, and nothing else. */
  lemma CounterEntry(c: seq<(Rank, nat)>, ranks: seq<Rank>, x: int)
    requires CountsOf(c, ranks)
    ensures (exists i :: 0 <= i < |c| && c[i] == (x, multiset(ranks)[x])) <==> x in ranks
  {
    if x in ranks {
      var p :| 0 <= p < |ranks| && ranks[p] == x;
      var r: Rank := ranks[p];
      var i := InKeys(c, r);
      assert c[i] == (x, multiset(ranks)[x]);
    }
    if i :| 0 <= i < |c| && c[i] == (x, multiset(ranks)[x]) {
      assert c[i].0 in ranks;
    }
  }

  /** The ranks `PairKeys` lists are those held exactly twice. */
  lemma PairKeysOfRanks(c: seq<(Rank, nat)>, ranks: seq<Rank>, x: int)
    requires CountsOf(c, ranks)
    ensures x in PairKeys(c) <==> x in ranks && multiset(ranks)[x] == 2
  {
    CounterEntry(c, ranks, x);
  }
}
