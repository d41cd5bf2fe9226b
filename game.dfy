/** The round engine: a table of AI players, a deck, the community cards, the
    pot and the dealer position. A round is pre-flop (two hole cards each),
    flop (three community cards), turn and river (one more each), each
    street followed by one betting pass in table order, and then the
    showdown. The words the language model answers are parameters, one per
    player per street. */
module Game {
  import opened Wrappers
  import opened Cards
  import opened HandEvaluator
  import opened HandCategory
  import opened Players
  import opened CardDeck

  // ---------------------------------------------------------------------------
  // The betting pass, stated on player states

  /** The running `current_bet` of `betting_round` once the players whose
      states after acting are `after` have had their turn (`before` holds the
      states they started the pass with): it starts at 0 and takes every
      larger `current_bet` of a player who was in. */
  function RunningBet(before: seq<PlayerState>, after: seq<PlayerState>): int
    requires |after| <= |before|
  {
    if after == [] then 0
    else
      var k := |after| - 1;
      var m := RunningBet(before, after[..k]);
      if before[k].isActive && after[k].currentBet > m then after[k].currentBet else m
  }

  /** What the pass adds to the pot: the `current_bet`, after acting, of
      every player who was in when its turn came. */
  function Contributions(before: seq<PlayerState>, after: seq<PlayerState>): int
    requires |after| <= |before|
  {
    if after == [] then 0
    else
      var k := |after| - 1;
      Contributions(before, after[..k]) + (if before[k].isActive then after[k].currentBet else 0)
  }

  /** The first |after| players in table order each acted on their
      decision against the running bet left by the players before them. */
  ghost predicate Acted(before: seq<PlayerState>, decisions: seq<string>, after: seq<PlayerState>)
    requires |after| <= |before| && |after| <= |decisions|
  {
    after == [] ||
      var k := |after| - 1;
      Acted(before, decisions, after[..k])
      && DecisionOutcome(before[k], decisions[k], RunningBet(before, after[..k]), after[k])
  }

  /** The whole table acted in turn. */
  ghost predicate BettingOutcome(before: seq<PlayerState>, decisions: seq<string>, after: seq<PlayerState>) {
    |before| == |after| == |decisions| && Acted(before, decisions, after)
  }

  /** Read player by player: the new state of player i is the outcome of
      its own decision against the running bet of those before it. */
  lemma {:induction false} ActedAt(before: seq<PlayerState>, decisions: seq<string>, after: seq<PlayerState>, i: nat)
    requires |after| <= |before| && |after| <= |decisions|
    requires Acted(before, decisions, after) && i < |after|
    ensures DecisionOutcome(before[i], decisions[i], RunningBet(before, after[..i]), after[i])
  {
    var k := |after| - 1;
    if i < k {
      var init := after[..k];
      ActedAt(before, decisions, init, i);
      assert init[..i] == after[..i] && init[i] == after[i];
    }
  }

  /** The running bet is never negative, is at least the `current_bet` of
      every player who was in, and is 0 or one of those bets: the largest
      one seen so far. */
  lemma {:induction false} RunningBetIsMax(before: seq<PlayerState>, after: seq<PlayerState>)
    requires |after| <= |before|
    ensures RunningBet(before, after) >= 0
    ensures forall j :: 0 <= j < |after| && before[j].isActive ==> after[j].currentBet <= RunningBet(before, after)
    ensures RunningBet(before, after) == 0 ||
      exists j :: 0 <= j < |after| && before[j].isActive && after[j].currentBet == RunningBet(before, after)
  {
    if after != [] {
      var k := |after| - 1;
      var init := after[..k];
      RunningBetIsMax(before, init);
      forall j | 0 <= j < k ensures init[j] == after[j] { }
      var m := RunningBet(before, init);
      if m != 0 && !(before[k].isActive && after[k].currentBet > m) {
        var j :| 0 <= j < |init| && before[j].isActive && init[j].currentBet == m;
        assert after[j].currentBet == m;
      }
    }
  }

  /** The running bet never decreases along the pass. */
  lemma RunningBetGrows(before: seq<PlayerState>, after: seq<PlayerState>, k: nat)
    requires |after| <= |before| && k <= |after|
    ensures RunningBet(before, after[..k]) <= RunningBet(before, after)
  {
    RunningBetIsMax(before, after[..k]);
    RunningBetIsMax(before, after);
    if RunningBet(before, after[..k]) != 0 {
      var j :| 0 <= j < k && before[j].isActive && after[..k][j].currentBet == RunningBet(before, after[..k]);
      assert after[j] == after[..k][j];
    }
  }

  /** With no negative bets the pass never takes from the pot. */
  lemma {:induction false} ContributionsNonNegative(before: seq<PlayerState>, after: seq<PlayerState>)
    requires |after| <= |before|
    requires forall j :: 0 <= j < |after| ==> after[j].currentBet >= 0
    ensures Contributions(before, after) >= 0
  {
    if after != [] {
      var k := |after| - 1;
      ContributionsNonNegative(before, after[..k]);
    }
  }

  /** A player who checks still adds its `current_bet` left from an earlier
      street: a lone player in with 100 already bet adds 100 again. */
  lemma CheckPaysAgain(h: seq<Card>)
    ensures var s := PlayerState(900, h, 100, true);
      BettingOutcome([s], [CHECK], [s]) && Contributions([s], [s]) == 100
  {
    var s := PlayerState(900, h, 100, true);
    assert [s][..0] == [];
  }

  /** Python's `<` on lists of integers: the first difference decides, and a
      proper prefix is smaller. */
  function LexLess(a: seq<int>, b: seq<int>): bool {
    if a == [] then b != []
    else if b == [] then false
    else if a[0] != b[0] then a[0] < b[0]
    else LexLess(a[1..], b[1..])
  }

  lemma {:induction false} LexLessIrreflexive(a: seq<int>)
    ensures !LexLess(a, a)
  {
    if a != [] {
      LexLessIrreflexive(a[1..]);
    }
  }

  lemma {:induction false} LexLessTransitive(a: seq<int>, b: seq<int>, c: seq<int>)
    requires LexLess(a, b) && LexLess(b, c)
    ensures LexLess(a, c)
  {
    if a != [] && b != [] && c != [] && a[0] == b[0] && b[0] == c[0] {
      LexLessTransitive(a[1..], b[1..], c[1..]);
    }
  }

  /** Different lists are ordered one way or the other. */
  lemma {:induction false} LexLessTotal(a: seq<int>, b: seq<int>)
    requires a != b
    ensures LexLess(a, b) || LexLess(b, a)
  {
    if a != [] && b != [] && a[0] == b[0] {
      assert a == [a[0]] + a[1..] && b == [b[0]] + b[1..];
      LexLessTotal(a[1..], b[1..]);
    }
  }

  /** `(hand_value, best_ranks)` of a beats that of b: a higher score, or
      the same score and larger tie-break ranks. */
  predicate Beats(a: Evaluation, b: Evaluation) {
    a.score > b.score || (a.score == b.score && LexLess(b.tieBreak, a.tieBreak))
  }

  /** Beating is a strict total order on evaluations. */
  lemma BeatsOrder(a: Evaluation, b: Evaluation, c: Evaluation)
    ensures !Beats(a, a)
    ensures Beats(a, b) && Beats(b, c) ==> Beats(a, c)
    ensures a != b ==> Beats(a, b) || Beats(b, a)
  {
    LexLessIrreflexive(a.tieBreak);
    if Beats(a, b) && Beats(b, c) && a.score == b.score && b.score == c.score {
      LexLessTransitive(c.tieBreak, b.tieBreak, a.tieBreak);
    }
    if a != b && a.score == b.score {
      LexLessTotal(a.tieBreak, b.tieBreak);
    }
  }

  // ---------------------------------------------------------------------------
  // The showdown, stated on entries

  /** What the showdown sees of a player: nothing for a player who folded,
      otherwise the outcome of `evaluate_hand` on its hole cards and the
      board. */
  type Entry = Option<Result<Evaluation>>

  function EntryOf(s: PlayerState, community: seq<Card>): Entry {
    if s.isActive then Some(EvaluateHand(s.hand, community)) else None
  }

  /** The entries of a table, seat by seat. */
  function Entries(ss: seq<PlayerState>, community: seq<Card>): (es: seq<Entry>)
    ensures |es| == |ss|
  {
    if ss == [] then [] else Entries(ss[..|ss| - 1], community) + [EntryOf(ss[|ss| - 1], community)]
  }

  lemma {:induction false} EntryAt(ss: seq<PlayerState>, community: seq<Card>, i: nat)
    requires i < |ss|
    ensures Entries(ss, community)[i] == EntryOf(ss[i], community)
  {
    hide EvaluateHand;
    var k := |ss| - 1;
    if i < k {
      EntryAt(ss[..k], community, i);
    }
  }

  /** The loop state of `determine_winner`: the best (score, tie-break
      ranks) so far, its seat and its label. */
  datatype Lead = Lead(best: Option<Evaluation>, bestPlayer: Option<nat>, description: string)

  /** One pass of the loop of `determine_winner` at seat k: a player in
      takes the lead with a higher score, or with the same score and larger
      tie-break ranks; an evaluation that raises ends the loop. */
  function Step(l: Lead, k: nat, x: Entry): Result<Lead> {
    match x
    case None => Ok(l)
    case Some(Err(m)) => Err(m)
    case Some(Ok(e)) =>
      if l.best.None? || e.score > l.best.value.score then Ok(Lead(Some(e), Some(k), DescribeHandValue(e.score)))
      else if e.score == l.best.value.score && LexLess(l.best.value.tieBreak, e.tieBreak) then
        Ok(Lead(Some(e), Some(k), DescribeHandValue(e.score)))
      else Ok(l)
  }

  /** The loop of `determine_winner` over the first |es| seats. */
  function Scan(es: seq<Entry>): Result<Lead> {
    if es == [] then Ok(Lead(None, None, ""))
    else
      var k := |es| - 1;
      match Scan(es[..k])
      case Err(m) => Err(m)
      case Ok(l) => Step(l, k, es[k])
  }

  /** Every player folded. */
  predicate NobodyIn(es: seq<Entry>) {
    forall j :: 0 <= j < |es| ==> es[j].None?
  }

  /** `determine_winner()` on the entries: "No winner" when nobody is in,
      otherwise the seat and label the loop ends with. */
  function Showdown(es: seq<Entry>): Result<(Option<nat>, string)> {
    if NobodyIn(es) then Ok((None, "No winner"))
    else
      match Scan(es)
      case Err(m) => Err(m)
      case Ok(l) => Ok((l.bestPlayer, l.description))
  }

  /** Seat w holds evaluation v, which no player in beats, and v beats every
      player in before seat w. */
  ghost predicate Leads(es: seq<Entry>, w: nat, v: Evaluation) {
    w < |es| && es[w] == Some(Ok(v))
    && (forall j :: 0 <= j < |es| && es[j].Some? ==> es[j].value.Ok? && !Beats(es[j].value.value, v))
    && (forall j :: 0 <= j < w && es[j].Some? ==> Beats(v, es[j].value.value))
  }

  /** One more seat of the loop. */
  lemma ScanStep(es: seq<Entry>, i: nat, l: Lead)
    requires i < |es| && Scan(es[..i]) == Ok(l)
    ensures Scan(es[..i + 1]) == Step(l, i, es[i])
  {
    assert es[..i + 1][..i] == es[..i];
  }

  /** Once an evaluation raises, the rest of the loop does not run. */
  lemma {:induction false} ScanErrSticks(es: seq<Entry>, k: nat)
    requires k <= |es| && Scan(es[..k]).Err?
    ensures Scan(es) == Scan(es[..k])
    decreases |es| - k
  {
    if k < |es| {
      assert es[..k + 1][..k] == es[..k];
      ScanErrSticks(es, k + 1);
    } else {
      assert es[..k] == es;
    }
  }

  /** The loop raises exactly when some player in has a hand that makes
      `evaluate_hand` raise. */
  lemma {:induction false} ScanErr(es: seq<Entry>)
    ensures Scan(es).Err? <==> exists j :: 0 <= j < |es| && es[j].Some? && es[j].value.Err?
  {
    if es != [] {
      var k := |es| - 1;
      var p := es[..k];
      ScanErr(p);
      if exists j :: 0 <= j < |p| && p[j].Some? && p[j].value.Err? {
        var j :| 0 <= j < |p| && p[j].Some? && p[j].value.Err?;
        assert es[j] == p[j];
      }
      if exists j :: 0 <= j < |es| && es[j].Some? && es[j].value.Err? {
        var j :| 0 <= j < |es| && es[j].Some? && es[j].value.Err?;
        if j < k {
          assert p[j] == es[j];
        }
      }
    }
  }

  /** What the loop keeps: a lead exactly when somebody is in, every player
      in evaluated, and the leader the first player in that nobody beats. */
  lemma {:induction false} ScanLeads(es: seq<Entry>)
    requires Scan(es).Ok?
    ensures var l := Scan(es).value;
      (l.best.None? <==> l.bestPlayer.None?)
      && (l.bestPlayer.None? <==> forall j :: 0 <= j < |es| ==> es[j].None?)
      && (l.bestPlayer.Some? ==> Leads(es, l.bestPlayer.value, l.best.value) && l.description == DescribeHandValue(l.best.value.score))
  {
    if es != [] {
      var k := |es| - 1;
      var p := es[..k];
      assert forall j :: 0 <= j < k ==> es[j] == p[j];
      ScanLeads(p);
      var l := Scan(p).value;
      match es[k]
      case None =>
      case Some(Ok(e)) =>
        if l.best.None? || e.score > l.best.value.score
          || (e.score == l.best.value.score && LexLess(l.best.value.tieBreak, e.tieBreak))
        {
          BeatsOrder(e, e, e);
          if l.best.Some? {
            var b := l.best.value;
            forall j | 0 <= j < k && es[j].Some?
              ensures es[j].value.Ok? && Beats(e, es[j].value.value) && !Beats(es[j].value.value, e)
            {
              var x := es[j].value.value;
              BeatsOrder(e, b, x);
              BeatsOrder(x, e, b);
              BeatsOrder(b, x, e);
            }
          }
        } else {
          var b := l.best.value;
          assert !Beats(e, b);
        }
    }
  }

  /** `determine_winner()`: it raises exactly when a player in has a hand
      `evaluate_hand` cannot score; otherwise there is no winner exactly
      when nobody is in (and the label is "No winner"), and a winner is a
      player in whose evaluation nobody beats, the first such in table
      order, labelled by `describe_hand_value` of its score. */
  lemma ShowdownOutcome(es: seq<Entry>)
    ensures Showdown(es).Err? <==> exists j :: 0 <= j < |es| && es[j].Some? && es[j].value.Err?
    ensures Showdown(es).Ok? ==> (Showdown(es).value.0.None? <==> forall j :: 0 <= j < |es| ==> es[j].None?)
    ensures Showdown(es).Ok? && Showdown(es).value.0.None? ==> Showdown(es).value.1 == "No winner"
    ensures Showdown(es).Ok? && Showdown(es).value.0.Some? ==>
      var w := Showdown(es).value.0.value;
      w < |es| && es[w].Some? && es[w].value.Ok? && Leads(es, w, es[w].value.value)
      && Showdown(es).value.1 == DescribeHandValue(es[w].value.value.score)
  {
    ScanErr(es);
    if Scan(es).Ok? {
      ScanLeads(es);
    }
  }

  /** Every player holds two hole cards. */
  ghost predicate HandsOfTwo(ss: seq<PlayerState>) {
    forall i :: 0 <= i < |ss| ==> |ss[i].hand| == 2
  }

  /** With two hole cards for everyone and five on the board, the
      showdown never raises. */
  lemma DealtShowdownOk(ss: seq<PlayerState>, community: seq<Card>)
    requires HandsOfTwo(ss) && |community| == 5
    ensures Showdown(Entries(ss, community)).Ok?
  {
    var es := Entries(ss, community);
    forall i | 0 <= i < |es| ensures !(es[i].Some? && es[i].value.Err?) {
      EntryAt(ss, community, i);
      EvaluateHandTotal(ss[i].hand, community);
    }
    ShowdownOutcome(es);
  }

  // ---------------------------------------------------------------------------
  // Labels

  /** `describe_hand_value(hand_value)`. */
  function DescribeHandValue(v: int): string {
    if v >= 8 then "Straight Flush"
    else if v == 7 then "Four of a Kind"
    else if v == 6 then "Full House"
    else if v == 5 then "Flush"
    else if v == 4 then "Straight"
    else if v == 3 then "Three of a Kind"
    else if v == 2 then "Two Pair"
    else if v == 1 then "One Pair"
    else "High Card"
  }

  /** The name of each score `evaluate_hand` returns. */
  function CategoryName(k: int): string
    requires 1 <= k <= 9
  {
    ["High Card", "One Pair", "Two Pair", "Three of a Kind", "Straight", "Flush",
     "Full House", "Four of a Kind", "Straight Flush"][k - 1]
  }

  /** The labels are one category off: score k gets the name of score k + 1,
      so 8 (four of a kind) and 9 share "Straight Flush" and a one-pair hand
      (score 2) is called "Two Pair". */
  lemma DescribeIsOneOff(k: int)
    requires 1 <= k <= 9
    ensures k <= 8 ==> DescribeHandValue(k) == CategoryName(k + 1)
    ensures k == 9 ==> DescribeHandValue(k) == CategoryName(9) == DescribeHandValue(8)
  {
  }

  // ---------------------------------------------------------------------------
  // Player lists

  ghost function StatesOf(ps: seq<AIPlayer>): (r: seq<PlayerState>)
    reads set p | p in ps
    ensures |r| == |ps| && forall i :: 0 <= i < |ps| ==> r[i] == ps[i].State()
  {
    if ps == [] then [] else [ps[0].State()] + StatesOf(ps[1..])
  }

  /** The hole cards of the players, in table order. */
  function AllHands(ss: seq<PlayerState>): seq<Card> {
    if ss == [] then [] else AllHands(ss[..|ss| - 1]) + ss[|ss| - 1].hand
  }

  /** `any(player.is_active for player in players)` */
  function AnyActiveIn(ps: seq<AIPlayer>): (b: bool)
    reads set p | p in ps
    ensures b <==> exists i :: 0 <= i < |ps| && ps[i].isActive
  {
    if ps == [] then false
    else
      var rest := AnyActiveIn(ps[1..]);
      assert forall i :: 1 <= i < |ps| ==> ps[i] == ps[1..][i - 1];
      ps[0].isActive || rest
  }

  /** `after` is `before` with new hands and nothing else changed: the
      table once the hole cards are dealt. */
  ghost predicate OnlyHandsChanged(before: seq<PlayerState>, after: seq<PlayerState>) {
    |before| == |after| && forall i :: 0 <= i < |after| ==> after[i] == before[i].(hand := after[i].hand)
  }

  /** The two cards `deal_hand(2)` gives seat j when the deck `cards` is
      dealt two at a time from its end: seat 0 gets the last card and the one
      before it, seat 1 the two before those, and so on. */
  function HoleCards(cards: seq<Card>, j: nat): seq<Card>
    requires 2 * j + 2 <= |cards|
  {
    [cards[|cards| - 1 - 2 * j], cards[|cards| - 2 - 2 * j]]
  }

  /** The players whose states are `done` hold the hole cards dealt from
      `cards`, seat by seat. */
  ghost predicate DealtFrom(cards: seq<Card>, done: seq<PlayerState>) {
    2 * |done| <= |cards| && forall j :: 0 <= j < |done| ==> done[j].hand == HoleCards(cards, j)
  }

  /** The next two cards of the deck left after dealing to i seats are seat
      i's hole cards. */
  lemma HoleCardsOfPrefix(cards: seq<Card>, i: nat)
    requires 2 * i + 2 <= |cards|
    ensures HoleCards(cards[..|cards| - 2 * i], 0) == HoleCards(cards, i)
  {
  }

  /** One more seat dealt: if the deck left after dealing to i seats from
      `cards` is `left`, and the next seat takes the two cards from its end,
      the deck is then dealt to i + 1 seats. */
  lemma DealStep(cards: seq<Card>, i: nat, left: seq<Card>, left': seq<Card>, done: seq<PlayerState>, x: PlayerState)
    requires 2 * i + 2 <= |cards| && |done| == i && DealtFrom(cards, done)
    requires DeckLeft(cards, i, left) && left' == left[..|left| - 2]
    requires x.hand == HoleCards(left, 0)
    ensures DeckLeft(cards, i + 1, left')
    ensures DealtFrom(cards, done + [x])
  {
    HoleCardsOfPrefix(cards, i);
  }

  /** `left` is what remains of the deck `cards` once i seats are dealt: all
      but its last 2i cards, in order. */
  ghost predicate DeckLeft(cards: seq<Card>, i: nat, left: seq<Card>) {
    2 * i <= |cards| && left == cards[..|cards| - 2 * i]
  }

  /** "AI Player {i+1}" */
  function PlayerName(i: nat): string {
    "AI Player " + NatToString(i + 1)
  }

  function NatToString(n: nat): string
    decreases n
  {
    if n < 10 then ["0123456789"[n]] else NatToString(n / 10) + ["0123456789"[n % 10]]
  }

  // ---------------------------------------------------------------------------
  // The game

  class PokerGame {
    const numPlayers: nat
    const players: seq<AIPlayer>
    const deck: Deck
    /** The seat of each player object: no object sits twice. */
    ghost const seatOf: map<AIPlayer, nat>
    var communityCards: seq<Card>
    var pot: int
    var dealerPosition: int

    ghost function States(): seq<PlayerState>
      reads players
    {
      StatesOf(players)
    }

    /** One player object per seat. The deck's own `Valid` says that every
        card is dealt or left exactly once. */
    ghost predicate Valid() {
      |players| == numPlayers
      && forall i :: 0 <= i < |players| ==> players[i] in seatOf && seatOf[players[i]] == i
    }

    /** The cards dealt from the deck since its reset are the hole cards in
        table order followed by the community cards. */
    ghost predicate CardsAccounted()
      reads this, deck, players
    {
      deck.dealt == AllHands(States()) + communityCards
    }

    /** `any_active_players()` */
    function AnyActivePlayers(): (b: bool)
      reads players
      ensures b <==> exists i :: 0 <= i < |players| && players[i].isActive
    {
      AnyActiveIn(players)
    }

    /** `PokerGame(num_players, starting_chips)`: players named "AI Player
        1", "AI Player 2", ... with the starting chips, a fresh shuffled
        deck, no community cards, an empty pot and the dealer at seat 0. */
    constructor (numPlayers: nat, startingChips: int)
      ensures Valid() && deck.Valid() && CardsAccounted() && this.numPlayers == numPlayers
      ensures forall i :: 0 <= i < |players| ==>
        players[i].name == PlayerName(i) && players[i].State() == PlayerState(startingChips, [], 0, true)
      ensures communityCards == [] && pot == 0 && dealerPosition == 0
      ensures fresh(deck) && forall i :: 0 <= i < |players| ==> fresh(players[i])
    {
      hide AllHands, PlayerName, FullDeck;
      var d := new Deck();
      var ps: seq<AIPlayer>;
      ghost var seats: map<AIPlayer, nat>;
      ps, seats := SeatPlayers(numPlayers, startingChips);
      this.numPlayers := numPlayers;
      players := ps;
      seatOf := seats;
      deck := d;
      communityCards := [];
      pot := 0;
      dealerPosition := 0;
      new;
      NoHands(States());
    }

    /** The players of the constructor, `AIPlayer(f"AI Player {i+1}",
        starting_chips)` at seat i, each a new object. */
    static method SeatPlayers(n: nat, startingChips: int) returns (ps: seq<AIPlayer>, ghost seats: map<AIPlayer, nat>)
      ensures |ps| == n
      ensures forall i :: 0 <= i < n ==>
        ps[i].name == PlayerName(i) && ps[i].State() == PlayerState(startingChips, [], 0, true)
      ensures forall i :: 0 <= i < n ==> ps[i] in seats && seats[ps[i]] == i
      ensures forall i :: 0 <= i < n ==> fresh(ps[i])
    {
      hide PlayerName;
      ps := [];
      seats := map[];
      var i := 0;
      while i < n
        invariant 0 <= i <= n && |ps| == i
        invariant forall j :: 0 <= j < i ==>
          ps[j].name == PlayerName(j) && ps[j].State() == PlayerState(startingChips, [], 0, true)
        invariant forall j :: 0 <= j < i ==> ps[j] in seats && seats[ps[j]] == j
        invariant forall j :: 0 <= j < i ==> fresh(ps[j])
      {
        var p := new AIPlayer(PlayerName(i), startingChips);
        ps := ps + [p];
        seats := seats[p := i];
        i := i + 1;
      }
    }

    /** `betting_round(round_name)`: one pass in table order; each player in
        acts on its decision against the running bet, and its `current_bet`
        after acting goes into the pot. */
    method BettingRound(decisions: seq<string>)
      requires Valid() && |decisions| == |players|
      modifies this`pot, players
      ensures BettingOutcome(old(States()), decisions, States())
      ensures pot == old(pot) + Contributions(old(States()), States())
      ensures unchanged(this`communityCards, this`dealerPosition, deck)
      ensures AllHands(States()) == AllHands(old(States()))
    {
      ghost var before := States();
      ghost var done: seq<PlayerState> := [];
      var currentBet := 0;
      var i := 0;
      while i < |players|
        invariant 0 <= i <= |players| && |done| == i
        invariant PassAt(before, decisions, done, currentBet, old(pot))
        modifies this`pot, players
      {
        hide Acted, RunningBet, Contributions, AllHands;
        currentBet, done := TakeTurn(i, currentBet, decisions[i], before, decisions, done, old(pot));
        i := i + 1;
      }
      hide Acted, RunningBet, Contributions, AllHands;
      assert States() == done;
      HandsKept(before, decisions, done);
      SameHands(before, done);
    }

    /** Part way through the pass: the players before seat |done| acted
        (their states are `done`), the others are as they were, and the
        running bet and the pot agree with those who acted. */
    ghost predicate PassAt(before: seq<PlayerState>, decisions: seq<string>, done: seq<PlayerState>, currentBet: int, pot0: int)
      reads this, players
    {
      |before| == |players| == |decisions| && |done| <= |players|
      && (forall j :: 0 <= j < |done| ==> players[j].State() == done[j])
      && (forall j :: |done| <= j < |players| ==> players[j].State() == before[j])
      && Acted(before, decisions, done)
      && currentBet == RunningBet(before, done)
      && pot == pot0 + Contributions(before, done)
    }

    /** One turn of the pass: the player at seat i acts if it is in, its
        `current_bet` after acting goes into the pot, and the running bet
        becomes that bet when it is larger. */
    method TakeTurn(i: nat, currentBet: int, decision: string,
                    ghost before: seq<PlayerState>, ghost decisions: seq<string>, ghost done: seq<PlayerState>, ghost pot0: int)
      returns (newBet: int, ghost done': seq<PlayerState>)
      requires Valid() && PassAt(before, decisions, done, currentBet, pot0)
      requires i == |done| < |players| && decision == decisions[i]
      modifies this`pot, players[i]
      ensures PassAt(before, decisions, done', newBet, pot0) && done' == done + [players[i].State()]
    {
      var player := players[i];
      newBet := currentBet;
      if player.isActive {
        var d := player.MakeDecision(communityCards, currentBet, decision);
        if player.currentBet > newBet {
          newBet := player.currentBet;
        }
        pot := pot + player.currentBet;
      }
      assert forall j :: 0 <= j < |players| && j != i ==> players[j].State() == old(players[j].State());
      ActStep(before, decisions, done, player.State());
      done' := done + [player.State()];
    }

    /** `play_pre_flop()`: a reset deck, no community cards, an empty pot,
        the dealer one seat on, two hole cards each, then a betting pass.
        `dealt` is the table once the hole cards are dealt. */
    method PlayPreFlop(decisions: seq<string>) returns (ghost dealt: seq<PlayerState>)
      requires Valid() && deck.Valid() && |decisions| == |players|
      requires 0 < numPlayers && 2 * numPlayers <= 52
      modifies this`communityCards, this`pot, this`dealerPosition, deck, players
      ensures deck.Valid() && CardsAccounted()
      ensures dealerPosition == (old(dealerPosition) + 1) % numPlayers
      ensures communityCards == []
      ensures HandsOfTwo(States())
      ensures |deck.cards| == 52 - 2 * numPlayers
      ensures |dealt| == |players| && OnlyHandsChanged(old(States()), dealt)
      ensures BettingOutcome(dealt, decisions, States())
      ensures pot == Contributions(dealt, States())
    {
      hide DealtFrom;
      StartHand();
      assert States() == old(States());
      dealt := DealAndBet(decisions);
    }

    /** The rest of `play_pre_flop` once the deck is reset: two hole cards
        each, then a betting pass. */
    method DealAndBet(decisions: seq<string>) returns (ghost dealt: seq<PlayerState>)
      requires Valid() && deck.Valid() && |decisions| == |players|
      requires deck.dealt == [] && |deck.cards| == 52 && 2 * numPlayers <= 52
      requires communityCards == [] && pot == 0
      modifies this`pot, deck, players
      ensures deck.Valid() && CardsAccounted()
      ensures forall i :: 0 <= i < |players| ==> |players[i].hand| == 2
      ensures |deck.cards| == 52 - 2 * numPlayers
      ensures deck.cards == old(deck.cards)[..52 - 2 * numPlayers]
      ensures |dealt| == |players| && OnlyHandsChanged(old(States()), dealt)
      ensures DealtFrom(old(deck.cards), dealt)
      ensures BettingOutcome(dealt, decisions, States())
      ensures pot == Contributions(dealt, States())
    {
      hide Acted, RunningBet, Contributions, AllHands, OnlyHandsChanged, DealtFrom;
      DealHoleCards();
      dealt := States();
      BettingRound(decisions);
      HandsKept(dealt, decisions, States());
      assert AllHands(States()) + [] == AllHands(States());
    }

    /** The opening of `play_pre_flop`: `deck.reset()`, no community cards,
        an empty pot and the dealer one seat on. */
    method StartHand()
      requires 0 < numPlayers
      modifies this`communityCards, this`pot, this`dealerPosition, deck
      ensures deck.Valid() && deck.dealt == [] && |deck.cards| == 52
      ensures communityCards == [] && pot == 0
      ensures dealerPosition == (old(dealerPosition) + 1) % numPlayers
    {
      deck.Reset();
      communityCards := [];
      pot := 0;
      dealerPosition := (dealerPosition + 1) % numPlayers;
    }

    /** The deal loop of `play_pre_flop`: `deal_hand(2)` for each player in
        table order. */
    method DealHoleCards()
      requires Valid() && deck.Valid() && deck.dealt == [] && 2 * |players| <= |deck.cards|
      modifies deck, players
      ensures deck.Valid() && deck.dealt == AllHands(States())
      ensures |deck.cards| == old(|deck.cards|) - 2 * |players|
      ensures OnlyHandsChanged(old(States()), States())
      ensures forall i :: 0 <= i < |players| ==> |players[i].hand| == 2
      ensures deck.cards == old(deck.cards)[..|old(deck.cards)| - 2 * |players|]
      ensures DealtFrom(old(deck.cards), States())
    {
      hide *;
      ghost var start, cards := States(), deck.cards;
      ghost var done: seq<PlayerState> := [];
      DealtNone(start, cards);
      var i := 0;
      while i < |players|
        invariant 0 <= i <= |players| && |done| == i
        invariant deck.Valid() && |deck.cards| == |cards| - 2 * i
        invariant DeckLeft(cards, i, deck.cards)
        invariant DealtAt(start, done)
        invariant DealtFrom(cards, done)
        modifies deck, players
      {
        ghost var left, done0 := deck.cards, done;
        done := DealTo(i, start, done);
        DealStep(cards, i, left, deck.cards, done0, done[i]);
        i := i + 1;
      }
      DealtAll(start, cards, done);
    }

    /** Before the first seat is dealt: no hands, the whole deck left. */
    lemma DealtNone(start: seq<PlayerState>, cards: seq<Card>)
      requires start == States() && cards == deck.cards && deck.dealt == []
      ensures DeckLeft(cards, 0, deck.cards) && DealtAt(start, []) && DealtFrom(cards, [])
    {
    }

    /** Once every seat is dealt, the states dealt are the table's and the
        deck left is the prefix. */
    lemma DealtAll(start: seq<PlayerState>, cards: seq<Card>, done: seq<PlayerState>)
      requires DealtAt(start, done) && |done| == |players| && DeckLeft(cards, |done|, deck.cards)
      ensures States() == done && deck.dealt == AllHands(States())
      ensures OnlyHandsChanged(start, States())
      ensures forall i :: 0 <= i < |players| ==> |players[i].hand| == 2
      ensures deck.cards == cards[..|cards| - 2 * |players|]
    {
      assert States() == done;
    }

    /** Part way through the deal: the players before seat |done| hold two
        cards each (their states are `done`), the others are as they were,
        and the cards dealt are their hands in table order. */
    ghost predicate DealtAt(start: seq<PlayerState>, done: seq<PlayerState>)
      reads this, deck, players
    {
      |start| == |players| && |done| <= |players|
      && (forall j :: 0 <= j < |done| ==> players[j].State() == done[j])
      && (forall j :: |done| <= j < |players| ==> players[j].State() == start[j])
      && (forall j :: 0 <= j < |done| ==> done[j] == start[j].(hand := done[j].hand) && |done[j].hand| == 2)
      && deck.dealt == AllHands(done)
    }

    /** `player.deal_hand(self.deck.deal_hand(2))` for the player at seat i. */
    method DealTo(i: nat, ghost start: seq<PlayerState>, ghost done: seq<PlayerState>) returns (ghost done': seq<PlayerState>)
      requires Valid() && deck.Valid() && DealtAt(start, done)
      requires i == |done| < |players| && 2 <= |deck.cards|
      modifies deck, players[i]
      ensures deck.Valid() && |deck.cards| == old(|deck.cards|) - 2
      ensures deck.cards == old(deck.cards)[..|old(deck.cards)| - 2]
      ensures done' == done + [players[i].State()] && DealtAt(start, done')
      ensures done'[i].hand == HoleCards(old(deck.cards), 0)
    {
      var h := deck.DealHand(2);
      assert h == HoleCards(old(deck.cards), 0);
      players[i].DealHand(h);
      assert forall j :: 0 <= j < |players| && j != i ==> players[j].State() == old(players[j].State());
      AllHandsAppend(done, players[i].State());
      done' := done + [players[i].State()];
    }

    /** `play_flop()`: the flop becomes the community cards, then a betting
        pass. */
    method PlayFlop(decisions: seq<string>)
      requires Valid() && deck.Valid() && |decisions| == |players| && 3 <= |deck.cards|
      modifies this`communityCards, this`pot, deck, players
      ensures deck.Valid()
      ensures |communityCards| == 3 && deck.dealt == old(deck.dealt) + communityCards
      ensures forall k :: 0 <= k < 3 ==> communityCards[k] == old(deck.cards)[|old(deck.cards)| - 1 - k]
      ensures deck.cards == old(deck.cards)[..|old(deck.cards)| - 3]
      ensures old(CardsAccounted()) && old(communityCards) == [] ==> CardsAccounted()
      ensures BettingOutcome(old(States()), decisions, States())
      ensures pot == old(pot) + Contributions(old(States()), States())
    {
      hide Acted, RunningBet, Contributions;
      DealFlopToBoard();
      BettingRound(decisions);
    }

    /** The first line of `play_flop()`: the flop becomes the board. */
    method DealFlopToBoard()
      requires deck.Valid() && 3 <= |deck.cards|
      modifies this`communityCards, deck
      ensures deck.Valid()
      ensures |communityCards| == 3 && deck.dealt == old(deck.dealt) + communityCards
      ensures forall k :: 0 <= k < 3 ==> communityCards[k] == old(deck.cards)[|old(deck.cards)| - 1 - k]
      ensures deck.cards == old(deck.cards)[..|old(deck.cards)| - 3]
      ensures old(CardsAccounted()) && old(communityCards) == [] ==> CardsAccounted()
    {
      communityCards := deck.DealFlop();
      assert States() == old(States());
      assert AllHands(old(States())) + [] == AllHands(old(States()));
    }

    /** `play_turn()`: one more community card, then a betting pass. */
    method PlayTurn(decisions: seq<string>)
      requires Valid() && deck.Valid() && |decisions| == |players| && 1 <= |deck.cards|
      modifies this`communityCards, this`pot, deck, players
      ensures deck.Valid()
      ensures communityCards == old(communityCards) + [old(deck.cards)[|old(deck.cards)| - 1]]
      ensures deck.cards == old(deck.cards)[..|old(deck.cards)| - 1]
      ensures old(CardsAccounted()) ==> CardsAccounted()
      ensures BettingOutcome(old(States()), decisions, States())
      ensures pot == old(pot) + Contributions(old(States()), States())
    {
      var turn := deck.DealTurn();
      communityCards := communityCards + [turn];
      assert States() == old(States());
      BettingRound(decisions);
      AppendToBoard(old(deck.dealt), AllHands(old(States())), old(communityCards), [turn]);
    }

    /** `play_river()`: the last community card, then a betting pass. */
    method PlayRiver(decisions: seq<string>)
      requires Valid() && deck.Valid() && |decisions| == |players| && 1 <= |deck.cards|
      modifies this`communityCards, this`pot, deck, players
      ensures deck.Valid()
      ensures communityCards == old(communityCards) + [old(deck.cards)[|old(deck.cards)| - 1]]
      ensures deck.cards == old(deck.cards)[..|old(deck.cards)| - 1]
      ensures old(CardsAccounted()) ==> CardsAccounted()
      ensures BettingOutcome(old(States()), decisions, States())
      ensures pot == old(pot) + Contributions(old(States()), States())
    {
      var river := deck.DealRiver();
      communityCards := communityCards + [river];
      assert States() == old(States());
      BettingRound(decisions);
      AppendToBoard(old(deck.dealt), AllHands(old(States())), old(communityCards), [river]);
    }

    /** `determine_winner()`: the showdown of the table's entries (see
        `Showdown`). Nothing changes. */
    method DetermineWinner() returns (r: Result<(Option<nat>, string)>)
      ensures r == Showdown(Entries(States(), communityCards))
    {
      hide EvaluateHand, Entries, DescribeHandValue, LexLess;
      ghost var ss := States();
      ghost var es := Entries(ss, communityCards);
      if !AnyActivePlayers() {
        forall j | 0 <= j < |es| ensures es[j].None? {
          EntryAt(ss, communityCards, j);
        }
        assert NobodyIn(es);
        return Ok((None, "No winner"));
      }
      ghost var k :| 0 <= k < |players| && players[k].isActive;
      EntryAt(ss, communityCards, k);
      assert !NobodyIn(es);
      var lead := Lead(None, None, "");
      for i := 0 to |players|
        invariant Scan(es[..i]) == Ok(lead)
      {
        EntryAt(ss, communityCards, i);
        ScanStep(es, i, lead);
        if players[i].isActive {
          var result := EvaluateHand(players[i].hand, communityCards);
          if result.Err? {
            ScanErrSticks(es, i + 1);
            return Err(result.error);
          }
          var e := result.value;
          var description := DescribeHandValue(e.score);
          if lead.best.None? || e.score > lead.best.value.score {
            lead := Lead(Some(e), Some(i), description);
          } else if e.score == lead.best.value.score && LexLess(lead.best.value.tieBreak, e.tieBreak) {
            lead := Lead(Some(e), Some(i), description);
          }
        }
      }
      assert es[..|players|] == es;
      r := Ok((lead.bestPlayer, lead.description));
    }

    /** The four betting streets, as the window's stage counter steps
        through them: pre-flop, flop, turn and river. With at most 23
        players the deck never runs out, and every player ends with two
        hole cards and five community cards. */
    method PlayStreets(preFlop: seq<string>, flop: seq<string>, turn: seq<string>, river: seq<string>)
      requires Valid() && deck.Valid() && 0 < numPlayers && 2 * numPlayers + 5 <= 52
      requires |preFlop| == |flop| == |turn| == |river| == |players|
      modifies this`communityCards, this`pot, this`dealerPosition, deck, players
      ensures deck.Valid() && CardsAccounted()
      ensures |communityCards| == 5 && HandsOfTwo(States())
    {
      hide *;
      ghost var dealt := PlayPreFlop(preFlop);
      ghost var s := States();
      PlayFlop(flop);
      HandsOfTwoKept(s, flop, States());
      s := States();
      PlayTurn(turn);
      HandsOfTwoKept(s, turn, States());
      s := States();
      PlayRiver(river);
      HandsOfTwoKept(s, river, States());
    }

    /** One round as the window drives it: the four streets, then the
        showdown, which never raises. */
    method PlayRound(preFlop: seq<string>, flop: seq<string>, turn: seq<string>, river: seq<string>)
      returns (r: Result<(Option<nat>, string)>)
      requires Valid() && deck.Valid() && 0 < numPlayers && 2 * numPlayers + 5 <= 52
      requires |preFlop| == |flop| == |turn| == |river| == |players|
      modifies this`communityCards, this`pot, this`dealerPosition, deck, players
      ensures deck.Valid() && CardsAccounted()
      ensures |communityCards| == 5 && HandsOfTwo(States())
      ensures r.Ok? && r == Showdown(Entries(States(), communityCards))
    {
      PlayStreets(preFlop, flop, turn, river);
      r := DetermineWinner();
      DealtShowdownOk(States(), communityCards);
    }

    /** The window's reset between rounds: a reset deck, every player reset,
        no community cards and an empty pot; stacks and the dealer are
        kept. */
    method ResetGameForNextRound()
      requires Valid() && deck.Valid()
      modifies this, deck, players
      ensures deck.Valid() && CardsAccounted()
      ensures multiset(deck.cards) == multiset(FullDeck())
      ensures forall i :: 0 <= i < |players| ==>
        players[i].State() == PlayerState(old(players[i].chips), [], 0, true)
      ensures communityCards == [] && pot == 0 && dealerPosition == old(dealerPosition)
    {
      deck.Reset();
      for i := 0 to |players|
        invariant deck.Valid() && deck.dealt == []
        invariant forall j :: 0 <= j < i ==> players[j].State() == PlayerState(old(players[j].chips), [], 0, true)
        invariant forall j :: i <= j < |players| ==> players[j].State() == old(players[j].State())
        modifies players
      {
        players[i].ResetForNextRound();
      }
      communityCards := [];
      pot := 0;
      NoHands(States());
    }
  }

  /** Players without cards hold no cards between them. */
  lemma {:induction false} NoHands(ss: seq<PlayerState>)
    requires forall i :: 0 <= i < |ss| ==> ss[i].hand == []
    ensures AllHands(ss) == []
  {
    if ss != [] {
      NoHands(ss[..|ss| - 1]);
    }
  }

  lemma AllHandsAppend(ss: seq<PlayerState>, s: PlayerState)
    ensures AllHands(ss + [s]) == AllHands(ss) + s.hand
  {
    assert (ss + [s])[..|ss|] == ss;
  }

  /** Only the hands matter to the cards held. */
  lemma {:induction false} SameHands(a: seq<PlayerState>, b: seq<PlayerState>)
    requires |a| == |b| && forall i :: 0 <= i < |a| ==> a[i].hand == b[i].hand
    ensures AllHands(a) == AllHands(b)
  {
    if a != [] {
      SameHands(a[..|a| - 1], b[..|b| - 1]);
    }
  }

  /** One more player acting on its decision extends the pass: the
      running bet and the contributions change by that player alone. */
  lemma ActStep(before: seq<PlayerState>, decisions: seq<string>, done: seq<PlayerState>, x: PlayerState)
    requires |done| < |before| && |done| < |decisions|
    requires Acted(before, decisions, done)
    requires DecisionOutcome(before[|done|], decisions[|done|], RunningBet(before, done), x)
    ensures Acted(before, decisions, done + [x])
    ensures var m := RunningBet(before, done);
      RunningBet(before, done + [x]) == if before[|done|].isActive && x.currentBet > m then x.currentBet else m
    ensures Contributions(before, done + [x]) ==
      Contributions(before, done) + if before[|done|].isActive then x.currentBet else 0
  {
    assert (done + [x])[..|done|] == done;
  }

  /** A card dealt to the board is accounted for at the end of the board. */
  lemma AppendToBoard(dealt: seq<Card>, hands: seq<Card>, board: seq<Card>, cs: seq<Card>)
    ensures dealt == hands + board ==> dealt + cs == hands + (board + cs)
  {
  }

  /** A betting pass keeps every hand. */
  lemma HandsKept(before: seq<PlayerState>, decisions: seq<string>, after: seq<PlayerState>)
    requires BettingOutcome(before, decisions, after)
    ensures forall i :: 0 <= i < |after| ==> after[i].hand == before[i].hand
  {
    forall i | 0 <= i < |after| ensures after[i].hand == before[i].hand {
      ActedAt(before, decisions, after, i);
    }
  }

  /** So everyone still holds two cards after a betting pass. */
  lemma HandsOfTwoKept(before: seq<PlayerState>, decisions: seq<string>, after: seq<PlayerState>)
    requires BettingOutcome(before, decisions, after) && HandsOfTwo(before)
    ensures HandsOfTwo(after)
  {
    HandsKept(before, decisions, after);
  }
}
