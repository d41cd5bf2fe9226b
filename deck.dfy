/** The deck: the 52 (rank, suit) cards, shuffled, dealt from the end of the
    list with `pop()`. `random.shuffle` is any permutation. The ghost field
    `dealt` records the cards handed out since the last reset. */
module CardDeck {
  import opened Cards

  const SUITS: seq<Suit> := [Hearts, Diamonds, Clubs, Spades]

  /** The place of a suit in SUITS. */
  function SuitIndex(st: Suit): (i: nat)
    ensures i < 4 && SUITS[i] == st
  {
    match st
    case Hearts => 0
    case Diamonds => 1
    case Clubs => 2
    case Spades => 3
  }

  /** `[(rank, suit) for rank in range(2, 15) for suit in SUITS]`: position
      i holds rank 2 + i / 4 in suit SUITS[i % 4]. */
  function FullDeck(): seq<Card> {
    seq(52, i requires 0 <= i < 52 => Card(2 + i / 4, SUITS[i % 4]))
  }

  /** A sequence without repetitions holds each element at most once, and
      conversely. */
  lemma {:induction false} NoDupIffCounts(s: seq<Card>)
    ensures NoDup(s) <==> forall c :: multiset(s)[c] <= 1
  {
    if s != [] {
      var t := s[1..];
      assert s == [s[0]] + t;
      NoDupIffCounts(t);
      if NoDup(s) {
        assert NoDup(t) by {
          forall i, j | 0 <= i < j < |t| ensures t[i] != t[j] {
            assert t[i] == s[i + 1] && t[j] == s[j + 1];
          }
        }
        assert s[0] !in t by {
          forall j | 0 <= j < |t| ensures t[j] != s[0] {
            assert t[j] == s[j + 1];
          }
        }
      }
      if forall c :: multiset(s)[c] <= 1 {
        assert forall c :: multiset(t)[c] <= 1 by {
          forall c ensures multiset(t)[c] <= 1 {
            assert multiset(s)[c] == multiset(t)[c] + (if c == s[0] then 1 else 0);
          }
        }
        assert multiset(s)[s[0]] == multiset(t)[s[0]] + 1;
        forall i, j | 0 <= i < j < |s| ensures s[i] != s[j] {
          if i == 0 {
            assert s[j] == t[j - 1];
            assert s[j] in t;
          } else {
            assert s[i] == t[i - 1] && s[j] == t[j - 1];
          }
        }
      }
    }
  }

  /** The full deck is the 52 different cards, every card once. */
  lemma FullDeckIsEveryCard()
    ensures |FullDeck()| == 52
    ensures NoDup(FullDeck())
    ensures forall c: Card :: c in FullDeck()
    ensures forall c: Card :: multiset(FullDeck())[c] == 1
  {
    var d := FullDeck();
    forall i, j | 0 <= i < j < |d| ensures d[i] != d[j] {
      assert i == 4 * (i / 4) + i % 4 && j == 4 * (j / 4) + j % 4;
      if i / 4 == j / 4 {
        assert SUITS[i % 4] != SUITS[j % 4];
      }
    }
    forall c: Card ensures c in d {
      var i := 4 * (c.rank - 2) + SuitIndex(c.suit);
      assert i / 4 == c.rank - 2 && i % 4 == SuitIndex(c.suit);
      assert d[i] == c;
    }
    NoDupIffCounts(d);
    forall c: Card ensures multiset(d)[c] == 1 {
      assert c in d;
    }
  }

  class Deck {
    var cards: seq<Card>
    ghost var dealt: seq<Card>

    /** Every card of the full deck is either dealt or still in the deck,
        exactly once. */
    ghost predicate Valid()
      reads this
    {
      multiset(dealt + cards) == multiset(FullDeck())
    }

    /** `Deck()`: the full deck, shuffled. */
    constructor ()
      ensures Valid() && dealt == []
      ensures multiset(cards) == multiset(FullDeck())
    {
      cards := FullDeck();
      dealt := [];
      new;
      Shuffle();
    }

    /** `shuffle()`: the same cards in some order. */
    method Shuffle()
      modifies this
      ensures multiset(cards) == multiset(old(cards))
      ensures dealt == old(dealt)
    {
      var shuffled :| multiset(shuffled) == multiset(cards);
      cards := shuffled;
    }

    /** `cards.pop()`: the last card, removed from the deck. */
    method Pop() returns (c: Card)
      requires Valid() && cards != []
      modifies this
      ensures Valid()
      ensures c == old(cards)[|old(cards)| - 1]
      ensures cards == old(cards)[..|old(cards)| - 1]
      ensures dealt == old(dealt) + [c]
    {
      c := cards[|cards| - 1];
      var rest := cards[..|cards| - 1];
      assert dealt + cards == dealt + rest + [c];
      assert multiset((dealt + [c]) + rest) == multiset(dealt + cards);
      cards := rest;
      dealt := dealt + [c];
    }

    /** `deal_hand(num_cards)`: the last n cards, last first; the deck keeps
        the rest in order. Popping from an empty list raises, so the deck
        must hold n cards. */
    method DealHand(n: nat) returns (hand: seq<Card>)
      requires Valid() && n <= |cards|
      modifies this
      ensures Valid()
      ensures |hand| == n
      ensures forall k :: 0 <= k < n ==> hand[k] == old(cards)[|old(cards)| - 1 - k]
      ensures cards == old(cards)[..|old(cards)| - n]
      ensures dealt == old(dealt) + hand
    {
      hand := [];
      var i := 0;
      while i < n
        invariant 0 <= i <= n && Valid()
        invariant |hand| == i
        invariant forall k :: 0 <= k < i ==> hand[k] == old(cards)[|old(cards)| - 1 - k]
        invariant cards == old(cards)[..|old(cards)| - i]
        invariant dealt == old(dealt) + hand
      {
        var c := Pop();
        hand := hand + [c];
        i := i + 1;
      }
    }

    /** `deal_flop()`: three cards popped as in `deal_hand`. */
    method DealFlop() returns (flop: seq<Card>)
      requires Valid() && 3 <= |cards|
      modifies this
      ensures Valid()
      ensures |flop| == 3
      ensures forall k :: 0 <= k < 3 ==> flop[k] == old(cards)[|old(cards)| - 1 - k]
      ensures cards == old(cards)[..|old(cards)| - 3]
      ensures dealt == old(dealt) + flop
    {
      flop := DealHand(3);
    }

    /** `deal_turn()`: one card popped. */
    method DealTurn() returns (c: Card)
      requires Valid() && cards != []
      modifies this
      ensures Valid()
      ensures c == old(cards)[|old(cards)| - 1]
      ensures cards == old(cards)[..|old(cards)| - 1]
      ensures dealt == old(dealt) + [c]
    {
      c := Pop();
    }

    /** `deal_river()`: one card popped. */
    method DealRiver() returns (c: Card)
      requires Valid() && cards != []
      modifies this
      ensures Valid()
      ensures c == old(cards)[|old(cards)| - 1]
      ensures cards == old(cards)[..|old(cards)| - 1]
      ensures dealt == old(dealt) + [c]
    {
      c := Pop();
    }

    /** `reset()`: the full deck again, shuffled. */
    method Reset()
      modifies this
      ensures Valid() && dealt == [] && |cards| == 52
      ensures multiset(cards) == multiset(FullDeck())
    {
      cards := FullDeck();
      dealt := [];
      Shuffle();
      assert |cards| == |multiset(cards)| == |multiset(FullDeck())| == 52;
    }
  }

  /** Of a valid deck, the dealt cards are all different and none of them is
      still in the deck; the deck holds no card twice either. */
  lemma DealtAreDistinct(dealt: seq<Card>, cards: seq<Card>)
    requires multiset(dealt + cards) == multiset(FullDeck())
    ensures NoDup(dealt) && NoDup(cards)
    ensures forall c :: c in dealt ==> c !in cards
    ensures |dealt| + |cards| == 52
  {
    FullDeckIsEveryCard();
    assert multiset(dealt + cards) == multiset(dealt) + multiset(cards);
    forall c ensures multiset(dealt)[c] + multiset(cards)[c] == 1 {
      assert multiset(dealt + cards)[c] == multiset(FullDeck())[c];
    }
    NoDupIffCounts(dealt);
    NoDupIffCounts(cards);
    forall c | c in dealt ensures c !in cards {
      assert multiset(dealt)[c] >= 1;
      assert multiset(cards)[c] == 0;
    }
    assert |dealt + cards| == |multiset(FullDeck())| == 52;
  }
}
