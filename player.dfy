/** An AI player: a name, a chip stack, two hole cards, the amount it put in
    on its last bet or raise, and whether it is still in the round. The
    decision it acts on comes from the language model and is a parameter
    here; `random.randint` is a choice anywhere in its range. */
module Players {
  import opened Cards

  const FOLD := "fold"
  const CHECK := "check"
  const BET := "bet"
  const RAISE := "raise"

  /** The fields of a player that a round changes. */
  datatype PlayerState = PlayerState(chips: int, hand: seq<Card>, currentBet: int, isActive: bool)

  function Max(a: int, b: int): int { if a >= b then a else b }
  function Min(a: int, b: int): int { if a <= b then a else b }

  /** The amounts `calculate_bet_amount(cb)` may return with `chips` in
      hand: everything when `min(chips, cb + 200)` is below
      `max(cb, 50)`, otherwise anything between the two. */
  ghost predicate BetAllowed(chips: int, cb: int, amount: int) {
    var lo := Max(cb, 50);
    var hi := Min(chips, cb + 200);
    (hi < lo ==> amount == chips) && (lo <= hi ==> lo <= amount <= hi)
  }

  /** The amounts `calculate_raise_amount(cb)` may return: everything when
      `chips <= 2 * cb` or when `min(chips, 3 * cb + 100)` is below `2 * cb`,
      otherwise anything between the two. */
  ghost predicate RaiseAllowed(chips: int, cb: int, amount: int) {
    var lo := 2 * cb;
    var hi := Min(chips, 3 * cb + 100);
    (chips <= lo || hi < lo ==> amount == chips) && (lo < chips && lo <= hi ==> lo <= amount <= hi)
  }

  /** What `make_decision` does to a player's state, given the decision the
      model returned and the running bet: an inactive player and a check
      change nothing, a bet or a raise moves the chosen amount from the
      stack to `current_bet`, and a fold or any other word deactivates. */
  ghost predicate DecisionOutcome(s: PlayerState, decision: string, cb: int, s': PlayerState) {
    if !s.isActive || decision == CHECK then s' == s
    else if decision == BET then
      s' == s.(chips := s.chips - s'.currentBet, currentBet := s'.currentBet) && BetAllowed(s.chips, cb, s'.currentBet)
    else if decision == RAISE then
      s' == s.(chips := s.chips - s'.currentBet, currentBet := s'.currentBet) && RaiseAllowed(s.chips, cb, s'.currentBet)
    else s' == s.(isActive := false)
  }

  /** A bet never exceeds the stack, and is not negative when the stack and
      the running bet are not. */
  lemma BetWithinStack(chips: int, cb: int, amount: int)
    requires BetAllowed(chips, cb, amount)
    ensures amount <= chips
    ensures chips >= 0 && cb >= 0 ==> amount >= 0
  {
  }

  /** The same for a raise. */
  lemma RaiseWithinStack(chips: int, cb: int, amount: int)
    requires RaiseAllowed(chips, cb, amount)
    ensures amount <= chips
    ensures chips >= 0 && cb >= 0 ==> amount >= 0
  {
  }

  /** A decision keeps the stack and the player's bet non-negative, and
      keeps the hand; the player stays in exactly on a check, bet or raise
      while active, and the stack changes only by the amount put in. */
  lemma DecisionKeepsSolvent(s: PlayerState, decision: string, cb: int, s': PlayerState)
    requires DecisionOutcome(s, decision, cb, s')
    requires s.chips >= 0 && s.currentBet >= 0 && cb >= 0
    ensures s'.chips >= 0 && s'.currentBet >= 0 && s'.hand == s.hand
    ensures s'.isActive <==> s.isActive && (decision == CHECK || decision == BET || decision == RAISE)
    ensures s'.chips == s.chips || s'.chips == s.chips - s'.currentBet
  {
    if s.isActive && decision == BET {
      BetWithinStack(s.chips, cb, s'.currentBet);
    } else if s.isActive && decision == RAISE {
      RaiseWithinStack(s.chips, cb, s'.currentBet);
    }
  }

  class AIPlayer {
    const name: string
    var chips: int
    var hand: seq<Card>
    var currentBet: int
    var isActive: bool

    ghost function State(): PlayerState
      reads this
    {
      PlayerState(chips, hand, currentBet, isActive)
    }

    /** `AIPlayer(name, chips)`: no cards, nothing bet, in the round. */
    constructor (name: string, chips: int)
      ensures this.name == name
      ensures State() == PlayerState(chips, [], 0, true)
    {
      this.name := name;
      this.chips := chips;
      hand := [];
      currentBet := 0;
      isActive := true;
    }

    /** `deal_hand(hand)`: the hand is replaced, nothing else changes. */
    method DealHand(h: seq<Card>)
      modifies this
      ensures State() == old(State()).(hand := h)
    {
      hand := h;
    }

    /** `calculate_bet_amount(current_bet)`; the pick of `random.randint` is
        any value in its range. */
    method CalculateBetAmount(cb: int) returns (amount: int)
      ensures Min(chips, cb + 200) < Max(cb, 50) ==> amount == chips
      ensures Max(cb, 50) <= Min(chips, cb + 200) ==> Max(cb, 50) <= amount <= Min(chips, cb + 200)
      ensures amount <= chips
    {
      var betMin := Max(cb, 50);
      var betMax := Min(chips, cb + 200);
      if betMax < betMin {
        amount := chips;
      } else {
        amount :| betMin <= amount <= betMax;
      }
    }

    /** `calculate_raise_amount(current_bet)`; the pick of `random.randint`
        is any value in its range. */
    method CalculateRaiseAmount(cb: int) returns (amount: int)
      ensures chips <= 2 * cb ==> amount == chips
      ensures Min(chips, 3 * cb + 100) < 2 * cb ==> amount == chips
      ensures 2 * cb < chips && 2 * cb <= Min(chips, 3 * cb + 100) ==> 2 * cb <= amount <= Min(chips, 3 * cb + 100)
      ensures amount <= chips
    {
      if chips <= cb * 2 {
        return chips;
      }
      var raiseMin := cb * 2;
      var raiseMax := Min(chips, cb * 3 + 100);
      if raiseMax < raiseMin {
        return chips;
      }
      amount :| raiseMin <= amount <= raiseMax;
    }

    /** `make_decision(community_cards, current_bet)` with `decision` the
        word the language model answered. An inactive player answers "fold"
        and changes nothing; otherwise the decision is returned and applied. */
    method MakeDecision(community: seq<Card>, cb: int, decision: string) returns (d: string)
      modifies this
      ensures d == if old(isActive) then decision else FOLD
      ensures DecisionOutcome(old(State()), decision, cb, State())
    {
      if !isActive {
        return FOLD;
      }
      if decision == FOLD {
        isActive := false;
      } else if decision == CHECK {
      } else if decision == BET {
        var betAmount := CalculateBetAmount(cb);
        chips := chips - betAmount;
        currentBet := betAmount;
      } else if decision == RAISE {
        var raiseAmount := CalculateRaiseAmount(cb);
        chips := chips - raiseAmount;
        currentBet := raiseAmount;
      } else {
        isActive := false;
      }
      d := decision;
    }

    /** `reset_for_next_round()`: no cards, nothing bet, back in; the stack
        is kept. */
    method ResetForNextRound()
      modifies this
      ensures State() == PlayerState(old(chips), [], 0, true)
    {
      hand := [];
      currentBet := 0;
      isActive := true;
    }
  }
}
