/** Playing cards as the deck and the evaluator see them: a (rank, suit) pair
    with rank 2..14 (11 = Jack, 12 = Queen, 13 = King, 14 = Ace). */
module Cards {
  datatype Suit = Hearts | Diamonds | Clubs | Spades

  type Rank = r: int | 2 <= r <= 14 witness 2

  datatype Card = Card(rank: Rank, suit: Suit)

  /** No element occurs twice. */
  predicate NoDup<T(==)>(s: seq<T>) {
    forall i, j :: 0 <= i < j < |s| ==> s[i] != s[j]
  }
}
