# AIPoker round engine, hand evaluator and decision sanitiser in Dafny

This project models the core of AIPoker, a Texas Hold'em table played by AI
players whose moves come from a local language model. It covers four parts.

- **The hand evaluator** (`HandEvaluator`, with its properties in
  `HandProperties`, `HandCategory`, `HandTieBreaks` and `Sorting`):
  `evaluate_hand` with every `is_*` test and `get_best_*` tie-break helper.
  `collections.Counter` is an ordered list of (key, count) pairs in order of
  first appearance, so the `[...][0]` picks choose the same rank as the code.
  The score is proved equal to a reference category that depends only on
  the multiset of cards. From that follow the range 1..9, the
  strongest-first order of the tests and the fact that reordering the cards
  never changes the score. Where the code raises (`max()` of an empty list
  with four or fewer cards), the model returns `Err`.
- **The player** (`Players`): `AIPlayer` is a class whose methods update its
  chips, hand, current bet and active flag in place. The word the language
  model answered is a parameter of `make_decision`. `random.randint` is a
  choice anywhere in its range.
- **The deck** (`CardDeck`): a class over the list of (rank, suit) cards.
  `random.shuffle` is any permutation, and dealing pops from the end of the
  list. A ghost field records the cards dealt since the last reset. Its
  invariant says every card of the 52 is either dealt or still in the deck,
  exactly once.
- **The game** (`Game`): `PokerGame` with the pre-flop, flop, turn and river
  streets, the single betting pass in table order and `determine_winner`.
  - The betting pass and the showdown are each specified by value functions
    over player states: `BettingOutcome` and `Contributions`, and
    `Entries`, `Scan` and `Showdown`. The methods are proved against those
    functions, and lemmas give the functions their meaning: the running bet
    is the largest bet seen, and the winner leads every other player.
  - The driver order is pre-flop, flop, turn, river, then showdown, as the
    stage counter of the GUI calls them, followed by the between-round reset.
    The model has these as `PlayStreets`, `PlayRound` and
    `ResetGameForNextRound`.
  - `describe_hand_value` is modelled as written. Its labels are one category
    off from the scores, so a one-pair hand is called "Two Pair" and scores
    8 and 9 share "Straight Flush". Lemma `DescribeIsOneOff` states this.
- **The decision sanitiser** (`Ollama`): `sanitize_decision`,
  `get_poker_compatible_model` with the list of installed models as a
  parameter, and `get_ai_decision`. The HTTP reply to each attempt is an
  oracle: either a transport failure or the content text. Text is ASCII:
  `lower()`, `strip()` and the regex word boundary `\b` are modelled on ASCII
  letters, digits and `_`.

The model keeps these behaviours of the code, which a reader might not
expect:
- A betting pass asks every active player, even when at most one player is
  still in.
- The showdown evaluates a sole remaining player's hand like any other.
- `get_ai_decision` gives up with "fold" on the first transport failure.
  Because `sanitize_decision` always yields an action, the first reply that
  arrives decides, and no second attempt is ever made.

## Model

| member | source | states |
|---|---|---|
| HandEvaluator.EvaluateHand | hand_evaluator.py:31-69 | a hand that does not raise scores between 1 (high card) and 9 (straight flush) |
| HandEvaluator.Counter | hand_evaluator.py:48-49 | `Counter(s)` lists each distinct element of s once, with the number of times it occurs, and nothing else |
| HandEvaluator.SuitedRanks | hand_evaluator.py:88 | the ranks gathered for a suit are exactly the ranks held in that suit |
| HandEvaluator.UniqueSorted | hand_evaluator.py:139 | `sorted(set(ranks))` is strictly increasing and holds exactly the ranks held |
| HandEvaluator.FirstRun | hand_evaluator.py:142-144 | the scan for five consecutive ranks finds the first index where a run starts, or reports that none exists |
| HandEvaluator.FirstWithCount | hand_evaluator.py:226 | `[r for r, c in rank_counts.items() if c == k][0]` is the first entry in Counter order whose count is k |
| HandEvaluator.FirstWithCountAtLeast | hand_evaluator.py:256 | the flush suit is the first suit in Counter order counted five or more times |
| HandEvaluator.FlushSuit | hand_evaluator.py:254-256 | the flush suit is held at least five times |
| HandEvaluator.GetHighCard | hand_evaluator.py:186-196 | `sorted(ranks, reverse=True)` is non-increasing and a permutation of the ranks |
| HandEvaluator.Without | hand_evaluator.py:272 | filtering out one rank keeps every other rank as many times as before and drops that rank |
| HandEvaluator.NotIn | hand_evaluator.py:287 | filtering out the pair ranks keeps every other rank as many times as before |
| HandEvaluator.PairKeys | hand_evaluator.py:286 | the pair candidates are exactly the ranks counted exactly twice |
| Sorting.SortDesc | hand_evaluator.py:196 | sorting in reverse gives a non-increasing permutation of the input |
| Sorting.MaxOf | hand_evaluator.py:227 | `max` of a non-empty list is an element of it that no element exceeds |
| Sorting.TakeSortDescIsTopK | hand_evaluator.py:258 | `sorted(s, reverse=True)[:k]` holds the k largest elements of s, largest first (all of s when it is shorter) |
| HandProperties.CounterCounts | hand_evaluator.py:48-49 | the modelled Counter counts exactly as `collections.Counter` does |
| HandProperties.IsStraightIff | hand_evaluator.py:129-148 | `is_straight` holds iff five consecutive ranks or the ace-low wheel A-2-3-4-5 are held |
| HandProperties.IsStraightFlushIff | hand_evaluator.py:72-91 | `is_straight_flush` holds iff some suit is held five or more times and its ranks make a straight |
| HandProperties.HasCountIff | hand_evaluator.py:103 | `k in rank_counts.values()` holds iff some rank is held exactly k times (used for 4, 3 and 2) |
| HandProperties.IsFlushIff | hand_evaluator.py:127 | `is_flush` holds iff some suit is held at least five times |
| HandProperties.IsTwoPairIff | hand_evaluator.py:172 | `is_two_pair` holds iff two different ranks are each held exactly twice |
| HandProperties.PairKeysOfRanks | hand_evaluator.py:286 | a rank is a pair candidate iff it is held exactly twice |
| HandProperties.GetBestStraightLowest | hand_evaluator.py:208-211 | the result is the lowest run of five, highest first, or `[]` when that run starts at the smallest rank held (stop -1 empties the slice) |
| HandProperties.GetBestStraightNoRun | hand_evaluator.py:212-214 | without a run of five, the result is `[5, 4, 3, 2, 14]` when the wheel is held and `[]` otherwise |
| HandProperties.GetBestStraightNone | hand_evaluator.py:208-214 | when the ranks make no straight, the result is `[]` |
| HandCategory.EvaluateHandScore | hand_evaluator.py:51-69 | the score is the first category of the reference chain (strongest first) that the cards satisfy; the code raises exactly for four cards that are four of a kind or two pairs |
| HandCategory.EvaluateHandTotal | hand_evaluator.py:31-69 | with five or more cards, `evaluate_hand` never raises |
| HandCategory.TwoTriplesNoFullHouse | hand_evaluator.py:115 | two ranks three times each and no pair is never a full house; with no stronger category it scores 4 |
| HandCategory.SpecCategoryPermuted | hand_evaluator.py:44-49 | the reference category depends only on the multiset of cards |
| HandCategory.EvaluateHandPermuted | hand_evaluator.py:44-49 | reordering the cards, or moving them between hand and community, changes neither whether the code raises nor the score |
| HandCategory.GetBestFourOfAKindSpec | hand_evaluator.py:226-228 | the result is the first rank counted 4 and the largest other rank, or a raise when no other rank exists |
| HandCategory.FourOfAKindRaises | hand_evaluator.py:227 | `max` of the other ranks raises exactly when the four of a kind are the only cards |
| HandCategory.TopPairs | hand_evaluator.py:286 | the two pair ranks chosen are held exactly twice, larger first, and no other rank held twice exceeds the second |
| HandCategory.TwoPairRaises | hand_evaluator.py:287 | `max` of the ranks outside both pairs raises exactly when the two pairs are the only cards |
| HandTieBreaks.FirstWithCountSeenFirst | hand_evaluator.py:48 | the first Counter entry with count k is the rank with that count that appears first in the cards |
| HandTieBreaks.FourOfAKindTieBreak | hand_evaluator.py:226-228 | the tie-break is a rank held four times, then the largest rank held apart from it; it raises with only four cards |
| HandTieBreaks.FourOfAKindFirstMet | hand_evaluator.py:226 | the quad rank chosen is the one met first in the cards |
| HandTieBreaks.FullHouseTieBreak | hand_evaluator.py:240-242 | the tie-break is the first rank met that is held three times, then the first met that is held exactly twice |
| HandTieBreaks.FlushTieBreak | hand_evaluator.py:254-258 | the tie-break is five ranks, largest first, the five largest of the first suit met that is held five times |
| HandTieBreaks.ThreeOfAKindTieBreak | hand_evaluator.py:271-273 | the tie-break is a rank held three times, then the two largest other ranks, largest first, without that rank |
| HandTieBreaks.ThreeOfAKindFirstMet | hand_evaluator.py:271 | the trips rank chosen is the one met first in the cards |
| HandTieBreaks.TwoPairTieBreak | hand_evaluator.py:286-288 | the tie-break is the two highest pair ranks, descending, then the largest rank in neither pair; it raises with only four cards |
| HandTieBreaks.OnePairTieBreak | hand_evaluator.py:301-303 | the tie-break is a rank held twice, then the three largest other ranks, largest first, without that rank |
| HandTieBreaks.OnePairFirstMet | hand_evaluator.py:301 | the pair rank chosen is the one met first in the cards |
| Players.AIPlayer.constructor | player.py:6-18 | a new player has its name and chips, no cards, nothing bet, and is in the round |
| Players.AIPlayer.DealHand | player.py:20-27 | the hand is replaced and nothing else changes |
| Players.AIPlayer.CalculateBetAmount | player.py:69-85 | the whole stack when `min(chips, cb + 200) < max(cb, 50)`, otherwise an amount in that range; never more than the stack |
| Players.AIPlayer.CalculateRaiseAmount | player.py:87-105 | the whole stack when `chips <= 2 * cb` or `min(chips, 3 * cb + 100) < 2 * cb`, otherwise an amount in `[2 * cb, min(chips, 3 * cb + 100)]`; never more than the stack |
| Players.AIPlayer.MakeDecision | player.py:29-67 | an inactive player answers "fold" and keeps its state; otherwise the decision is returned and applied: check changes nothing, bet and raise move the amount from the stack to `current_bet`, fold and any other word deactivate |
| Players.AIPlayer.ResetForNextRound | player.py:107-113 | no cards, nothing bet, back in the round, with the chips kept |
| Players.BetWithinStack | player.py:79-85 | a bet amount never exceeds the stack, and is not negative when the stack and the running bet are not |
| Players.RaiseWithinStack | player.py:97-105 | a raise amount never exceeds the stack, and is not negative when the stack and the running bet are not |
| Players.DecisionKeepsSolvent | player.py:40-67 | a decision keeps chips and `current_bet` non-negative and the hand unchanged, keeps a player in iff it was in and said check, bet or raise, and takes from the stack exactly the new `current_bet` or nothing |
| CardDeck.FullDeckIsEveryCard | deck.py:10 | the card list is the 52 (rank, suit) pairs, every card exactly once |
| CardDeck.Deck.constructor | deck.py:4-11 | a new deck is a permutation of the 52 cards, none dealt |
| CardDeck.Deck.Shuffle | deck.py:13-17 | shuffling keeps the same cards |
| CardDeck.Deck.Pop | deck.py:26 | `pop()` removes and returns the last card, which counts as dealt |
| CardDeck.Deck.DealHand | deck.py:19-26 | `deal_hand(n)` needs n cards and returns the last n in reverse order, leaving the prefix in order |
| CardDeck.Deck.DealFlop | deck.py:28-35 | three cards are popped, last first |
| CardDeck.Deck.DealTurn | deck.py:37-44 | one card is popped |
| CardDeck.Deck.DealRiver | deck.py:46-53 | one card is popped |
| CardDeck.Deck.Reset | deck.py:55-60 | the deck is again a permutation of the 52 cards, none dealt |
| CardDeck.DealtAreDistinct | deck.py:26 | the cards dealt from a deck are pairwise different and none is still in the deck |
| Game.RunningBetIsMax | game.py:90-95 | the running bet of a pass starts at 0 and is the largest `current_bet` of the players in so far (0 when none bet) |
| Game.RunningBetGrows | game.py:94-95 | the running bet never decreases during a pass |
| Game.ActedAt | game.py:91-95 | each player in the pass acted on its own decision against the running bet left by the players before it |
| Game.ContributionsNonNegative | game.py:96 | the pass never takes money out of the pot when every `current_bet` is non-negative |
| Game.CheckPaysAgain | game.py:96 | a player who checks with an earlier bet of 100 still adds 100 to the pot |
| Game.HandsKept | game.py:91-96 | a betting pass changes no one's hand |
| Game.HandsOfTwoKept | game.py:91-96 | two hole cards each stay two hole cards each through a betting pass |
| Game.LexLessIrreflexive | game.py:126 | Python's list `>` is irreflexive |
| Game.LexLessTransitive | game.py:126 | Python's list `>` is transitive |
| Game.LexLessTotal | game.py:126 | of two different rank lists, one is greater |
| Game.BeatsOrder | game.py:122-129 | comparing (score, tie-break) is a strict total order |
| Game.EntryAt | game.py:107-118 | the showdown sees nothing of a player who folded and `evaluate_hand` of the hand and board of a player in |
| Game.ScanErrSticks | game.py:118 | once an evaluation raises, the rest of the loop does not run |
| Game.ScanErr | game.py:117-129 | the loop raises iff some player in has a hand that `evaluate_hand` raises on |
| Game.ScanLeads | game.py:117-129 | the loop ends with no leader iff nobody is in, else with a leader whose (score, tie-break) no player beats, which beats everyone before it, and the label of its score |
| Game.ShowdownOutcome | game.py:99-136 | `(None, "No winner")` iff nobody is in; otherwise a player in whose hand is lexicographically maximal, the earliest on exact ties, with its label; an error iff some evaluation raises |
| Game.DealtShowdownOk | game.py:117-118 | with two hole cards each and five community cards, no evaluation raises |
| Game.DescribeIsOneOff | game.py:138-165 | the label of score k is the name of category k + 1, and 8 and 9 share "Straight Flush" |
| Game.AnyActiveIn | game.py:167-174 | true iff some player is active |
| Game.PokerGame.AnyActivePlayers | game.py:167-174 | true iff some player at the table is active |
| Game.PokerGame.constructor | game.py:6-20 | players "AI Player 1".."AI Player n" with the starting chips, a fresh deck, no community cards, an empty pot and the dealer at seat 0 |
| Game.PokerGame.SeatPlayers | game.py:15 | n distinct new player objects named "AI Player i+1", each with the starting chips, no cards and in the round |
| Game.PokerGame.BettingRound | game.py:82-97 | the table ends as the pass in table order of the given decisions, the pot grows by the `current_bet` of every player who was in at its turn, and nothing else changes |
| Game.PokerGame.TakeTurn | game.py:91-97 | one turn: an active player acts against the running bet and its `current_bet` goes into the pot; an inactive one is skipped |
| Game.PokerGame.StartHand | game.py:26-32 | a full shuffled deck, no community cards, an empty pot and the dealer moved one seat on |
| Game.PokerGame.DealHoleCards | game.py:34-38 | with n cards in the deck and m players, seat j holds the two cards `deal_hand(2)` pops for it: the cards at positions n-1-2j and n-2-2j; the deck keeps its first n-2m cards in order, and nothing else about the players changes |
| Game.PokerGame.DealTo | game.py:36 | the player at seat i gets the deck's last card and the one before it, and the deck keeps the rest in order |
| Game.PokerGame.DealAndBet | game.py:34-41 | with m players, seat j holds the reset deck's cards at positions 51-2j and 50-2j, the deck keeps its first 52-2m cards in order, then the pre-flop pass with the pot starting from 0 |
| Game.PokerGame.PlayPreFlop | game.py:22-45 | dealer moved to `(old + 1) % num_players`, no community cards, two hole cards each from a fresh deck, then the pass, with the pot holding exactly that pass's contributions |
| Game.PokerGame.DealFlopToBoard | game.py:51 | the board becomes the deck's last three cards, last first, and the deck keeps the rest in order |
| Game.PokerGame.PlayFlop | game.py:47-56 | the board is the deck's last three cards, last first, the deck keeps the rest in order, then the pass on top of the old pot |
| Game.PokerGame.PlayTurn | game.py:58-68 | one more card popped onto the board, then the pass on top of the old pot |
| Game.PokerGame.PlayRiver | game.py:70-80 | one more card popped onto the board, then the pass on top of the old pot |
| Game.PokerGame.DetermineWinner | game.py:99-136 | the result is the showdown of the table: see ShowdownOutcome |
| Game.PokerGame.PlayStreets | gui.py:125-139 | pre-flop, flop, turn and river in order leave five community cards, two hole cards each, and every dealt card accounted for |
| Game.PokerGame.PlayRound | gui.py:125-148 | a whole round ends with five community cards and a showdown that does not raise |
| Game.PokerGame.ResetGameForNextRound | gui.py:150-160 | a full shuffled deck, every player reset with its chips kept, no community cards and an empty pot |
| Ollama.LowerIdempotent | ollama_integration.py:55 | lowercasing twice is lowercasing once |
| Ollama.SkipSpace | ollama_integration.py:101 | the first position from i that is not whitespace |
| Ollama.SkipSpaceBack | ollama_integration.py:101 | the last position before j that is not whitespace |
| Ollama.Strip | ollama_integration.py:101 | `strip()` is a slice that removes only whitespace, from both ends, and leaves no whitespace at either end |
| Ollama.FirstAlternative | ollama_integration.py:55 | the first alternative that matches as a whole word at p, or none when no alternative does |
| Ollama.MatchAtSpec | ollama_integration.py:55 | an action matched at p is a whole-word occurrence there; nothing is matched iff no action occurs there as a whole word |
| Ollama.Search | ollama_integration.py:55 | `re.search` finds the earliest position with a match and what matched there, or reports that none exists |
| Ollama.SanitizeDecision | ollama_integration.py:44-63 | the result is always one of fold, check, bet and raise |
| Ollama.SanitizeEarliest | ollama_integration.py:55-63 | the result is the action at the earliest whole-word occurrence in the lowercased text, or "check" when there is none |
| Ollama.SanitizeIgnoresCase | ollama_integration.py:55 | sanitising is insensitive to case |
| Ollama.SanitizeBetter | ollama_integration.py:61-63 | "better" holds no whole-word action, so it gives "check" |
| Ollama.SanitizeFirstWord | ollama_integration.py:55-60 | "Bet, or fold" gives "bet", the earliest action |
| Ollama.ContainsIff | ollama_integration.py:37 | `sub in s` holds iff sub occurs at some position of s |
| Ollama.GetPokerCompatibleModel | ollama_integration.py:28-42 | the first model whose name contains "llama3", "command-r" or "qwen", else "llama3:latest" when none does |
| Ollama.GetAiDecision | ollama_integration.py:65-114 | always an action; "fold" with no attempts or on a transport failure; otherwise the sanitised, stripped and lowercased first reply |

## Left out

- Logging: the game log, `get_log` and every `print` are console and record output. No decision depends on them.
- The GUI: widgets, pixmaps, timers and `show_winner`'s text. Only the stage order and the between-round reset shape the driver. `get_win_percentage` calls a method `AIPlayer` does not define. `main.py` only wires the game to the GUI.
- HTTP and JSON: `get_available_models` becomes the `models` parameter. Each `requests.post` with its status check and JSON decoding becomes the `post` oracle. A missing `content` field is the reply `Answer("")`.
- The prompt text built for the model is left out, because the reply oracle does not depend on it.
- Randomness: `random.shuffle` is any permutation and `random.randint` is any value in its range, not a PRNG.
- Text is ASCII: Unicode case mapping in `lower()`, Unicode whitespace in `strip()` and Unicode word characters in `\w` are not modelled.
- Ollama.GetAiDecision: `max_retries` is a natural number. A negative count gives an empty `range`, so it behaves like 0.
- Players.AIPlayer.MakeDecision: the decision is a parameter rather than a call to `get_ai_decision`. That call always returns an action, so the source's "invalid response" branch is reachable only through this parameter.
- CardDeck.Deck.Pop: popping from an empty list raises `IndexError`. The model requires a card to be left instead, and the same holds for the dealing methods.
- Game.PokerGame.PlayRound: requires `2 * numPlayers + 5 <= 52`. With more than 23 players the source raises `IndexError` while dealing, and that error is not modelled.
- Game.PokerGame.PlayPreFlop: requires at least one player. With none, `% num_players` raises `ZeroDivisionError`.
- Game.PokerGame.PlayStreets: states only the card bookkeeping of the four streets. The betting outcome of each street is stated by PlayPreFlop, PlayFlop, PlayTurn and PlayRiver.
- Game.PokerGame.PlayRound: does not restate the betting outcome of each street either, for the same reason.
- The checks `if not self.any_active_players(): return` at the end of each street return from a function that ends there anyway. They are not modelled as branches.
- The `community_cards` argument of `make_decision` only feeds the prompt, so it has no effect in the model.
- Chip and pot conservation is not a property of the source, and it is not claimed. The pot takes every acting player's `current_bet` on every street, even on a check or a fold (lemma CheckPaysAgain).
