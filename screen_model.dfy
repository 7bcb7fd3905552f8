/**
 * The daily-rewards board (src/features/dailyRewards/model/useDailyRewardsScreenModel.ts):
 * the held state `rerollCount` and `cards`, the cached `maxRerolls`, the two actions and
 * the derived values. Board and its Apply functions are the state transitions; the class
 * DailyRewardsScreenModel holds the state and is proved to follow them.
 */
module ScreenModel {
  import opened Wrappers
  import opened RewardTypes
  import opened RewardsService

  datatype Board = Board(rerollCount: int, cards: seq<CardData>, maxRerolls: int)

  /** The state a fresh screen starts from: no rerolls used, the seed cards, the service's limit. */
  function InitialBoard(): Board {
    Board(0, InitialCards, MaxRerolls)
  }

  predicate CounterInRange(b: Board) {
    0 <= b.rerollCount <= b.maxRerolls
  }

  /** The `map` inside claimReward: every card with that day gets `claimed: true`. */
  function ClaimInCards(cards: seq<CardData>, day: int): (r: seq<CardData>)
    ensures |r| == |cards|
    ensures forall i :: 0 <= i < |cards| ==>
      RewardOf(r[i]) == RewardOf(cards[i]) && r[i].day == cards[i].day && r[i].cardType == cards[i].cardType
    ensures forall i :: 0 <= i < |cards| ==> (IsClaimed(r[i]) <==> IsClaimed(cards[i]) || cards[i].day == day)
    ensures forall i :: 0 <= i < |cards| && cards[i].day != day ==> r[i] == cards[i]
  {
    seq(|cards|, i requires 0 <= i < |cards| => if cards[i].day == day then cards[i].(claimed := Some(true)) else cards[i])
  }

  /** reroll: refused once the limit is reached, otherwise one more reroll and fresh rewards. */
  function ApplyReroll(b: Board, picks: seq<nat>): (r: Board)
    requires ValidPicks(picks, |b.cards|)
    ensures r.maxRerolls == b.maxRerolls && |r.cards| == |b.cards|
    ensures CounterInRange(b) ==> CounterInRange(r)
    ensures b.rerollCount <= r.rerollCount <= b.rerollCount + 1
  {
    if b.rerollCount >= b.maxRerolls then b
    else b.(rerollCount := b.rerollCount + 1, cards := GenerateRandomRewards(b.cards, picks))
  }

  /** claimReward: no check of card type, earlier claim, or whether the day exists. */
  function ApplyClaim(b: Board, day: int): (r: Board)
    ensures r.rerollCount == b.rerollCount && r.maxRerolls == b.maxRerolls && |r.cards| == |b.cards|
  {
    b.(cards := ClaimInCards(b.cards, day))
  }

  /** canReroll. */
  predicate CanReroll(b: Board) {
    b.rerollCount < b.maxRerolls
  }

  /** remainingRerolls: positive exactly when another reroll is allowed. */
  function RemainingRerolls(b: Board): (r: int)
    ensures r > 0 <==> CanReroll(b)
    ensures CounterInRange(b) ==> 0 <= r <= b.maxRerolls
  {
    b.maxRerolls - b.rerollCount
  }

  /** The screen's reroll control is disabled exactly when no reroll is left. */
  predicate RerollButtonDisabled(b: Board) {
    !CanReroll(b)
  }

  /** The screen's `isCurrentDay` for a card. */
  predicate IsCurrentDay(card: CardData) {
    card.day == CurrentDay
  }

  /**
   * The reroll control and reroll agree: the control is disabled exactly when a reroll
   * would change nothing, and enabled exactly when it would use up one more reroll.
   */
  lemma RerollControlMatchesGuard(b: Board, picks: seq<nat>)
    requires ValidPicks(picks, |b.cards|)
    ensures RerollButtonDisabled(b) <==> ApplyReroll(b, picks) == b
    ensures CanReroll(b) <==> ApplyReroll(b, picks).rerollCount == b.rerollCount + 1
  {
  }

  /** On the seed board the third card, day 3, is the one highlighted as today's. */
  lemma CurrentDayHighlightsThirdSeedCard()
    ensures forall i :: 0 <= i < |InitialCards| ==> (IsCurrentDay(InitialCards[i]) <==> i == 2)
  {
  }

  datatype BoardAction = RerollAction(picks: seq<nat>) | ClaimAction(day: int)

  /** Every reroll in the list draws one pool index per card. */
  predicate ActionsFit(actions: seq<BoardAction>, cardCount: nat) {
    forall k :: 0 <= k < |actions| && actions[k].RerollAction? ==> ValidPicks(actions[k].picks, cardCount)
  }

  function ApplyAction(b: Board, a: BoardAction): (r: Board)
    requires a.RerollAction? ==> ValidPicks(a.picks, |b.cards|)
    ensures |r.cards| == |b.cards| && r.maxRerolls == b.maxRerolls
  {
    match a
    case RerollAction(picks) => ApplyReroll(b, picks)
    case ClaimAction(day) => ApplyClaim(b, day)
  }

  /** A sequence of user actions, applied in order. */
  function Run(b: Board, actions: seq<BoardAction>): (r: Board)
    requires ActionsFit(actions, |b.cards|)
    ensures |r.cards| == |b.cards| && r.maxRerolls == b.maxRerolls
    decreases |actions|
  {
    if actions == [] then b else Run(ApplyAction(b, actions[0]), actions[1..])
  }

  /** The counter never decreases and stays within [0, maxRerolls] whatever the user does. */
  lemma {:induction false} RunKeepsCounterInRange(b: Board, actions: seq<BoardAction>)
    requires CounterInRange(b) && ActionsFit(actions, |b.cards|)
    ensures CounterInRange(Run(b, actions))
    ensures b.rerollCount <= Run(b, actions).rerollCount
    decreases |actions|
  {
    if actions != [] {
      RunKeepsCounterInRange(ApplyAction(b, actions[0]), actions[1..]);
    }
  }

  /** A claimed card is never changed again, by rerolls or by further claims. */
  lemma {:induction false} RunKeepsClaimedCard(b: Board, actions: seq<BoardAction>, i: nat)
    requires ActionsFit(actions, |b.cards|) && i < |b.cards| && IsClaimed(b.cards[i])
    ensures Run(b, actions).cards[i] == b.cards[i]
    decreases |actions|
  {
    if actions != [] {
      var b' := ApplyAction(b, actions[0]);
      assert b'.cards[i] == b.cards[i] by {
        assert b.cards[i].(claimed := Some(true)) == b.cards[i];
      }
      RunKeepsClaimedCard(b', actions[1..], i);
    }
  }

  /** Days and card types never change, so a card's identity is its position. */
  lemma {:induction false} RunKeepsDaysAndTypes(b: Board, actions: seq<BoardAction>, i: nat)
    requires ActionsFit(actions, |b.cards|) && i < |b.cards|
    ensures Run(b, actions).cards[i].day == b.cards[i].day
    ensures Run(b, actions).cards[i].cardType == b.cards[i].cardType
    decreases |actions|
  {
    if actions != [] {
      RunKeepsDaysAndTypes(ApplyAction(b, actions[0]), actions[1..], i);
    }
  }

  /** Claiming the same day twice leaves the board as claiming it once. */
  lemma ClaimIdempotent(b: Board, day: int)
    ensures ApplyClaim(ApplyClaim(b, day), day) == ApplyClaim(b, day)
  {
    var once := ApplyClaim(b, day).cards;
    var twice := ApplyClaim(ApplyClaim(b, day), day).cards;
    assert forall i :: 0 <= i < |once| ==> twice[i] == once[i];
  }

  /** Claiming a day no card has changes nothing. */
  lemma ClaimUnknownDayIsNoOp(b: Board, day: int)
    requires forall i :: 0 <= i < |b.cards| ==> b.cards[i].day != day
    ensures ApplyClaim(b, day) == b
  {
    assert ClaimInCards(b.cards, day) == b.cards;
  }

  /** With the limit reached, reroll leaves counter and cards as they were. */
  lemma RerollWhenExhaustedIsNoOp(b: Board, picks: seq<nat>)
    requires ValidPicks(picks, |b.cards|) && !CanReroll(b)
    ensures ApplyReroll(b, picks) == b
  {
  }

  /** Three rerolls on a fresh two-card board use up the limit; the fourth changes nothing. */
  lemma ThreeRerollsExhaustTheLimit(p1: seq<nat>, p2: seq<nat>, p3: seq<nat>, p4: seq<nat>)
    requires ValidPicks(p1, 2) && ValidPicks(p2, 2) && ValidPicks(p3, 2) && ValidPicks(p4, 2)
    ensures var b0 := Board(0, [CardData(1, Free, Coins, 100, None), CardData(2, Free, Gems, 150, None)], MaxRerolls);
            var b3 := ApplyReroll(ApplyReroll(ApplyReroll(b0, p1), p2), p3);
            b3.rerollCount == 3 && !CanReroll(b3) && ApplyReroll(b3, p4) == b3
  {
  }

  /** The board state held by the screen's hook. */
  class DailyRewardsScreenModel {
    var rerollCount: int
    var cards: seq<CardData>
    const maxRerolls: int

    function State(): Board
      reads this
    {
      Board(rerollCount, cards, maxRerolls)
    }

    ghost predicate Valid()
      reads this
    {
      CounterInRange(State())
    }

    /** First render: counter 0, the service's seed cards, the service's limit. */
    constructor (service: DailyRewardsService)
      requires service.Valid()
      ensures Valid() && State() == InitialBoard()
    {
      var seed := service.GetInitialCards();
      rerollCount := 0;
      cards := seed[..];
      maxRerolls := MaxRerolls;
    }

    /** reroll, with `picks` standing for the draws of Math.random. */
    method Reroll(picks: seq<nat>)
      requires Valid() && ValidPicks(picks, |cards|)
      modifies this
      ensures Valid()
      ensures old(rerollCount) >= maxRerolls ==> rerollCount == old(rerollCount) && cards == old(cards)
      ensures old(rerollCount) < maxRerolls ==>
        rerollCount == old(rerollCount) + 1 && cards == GenerateRandomRewards(old(cards), picks)
      ensures State() == ApplyReroll(old(State()), picks)
    {
      if rerollCount >= maxRerolls {
        return;
      }
      rerollCount := rerollCount + 1;
      cards := GenerateRandomRewards(cards, picks);
    }

    /** claimReward(day). */
    method ClaimReward(day: int)
      requires Valid()
      modifies this
      ensures Valid()
      ensures rerollCount == old(rerollCount) && cards == ClaimInCards(old(cards), day)
      ensures State() == ApplyClaim(old(State()), day)
    {
      cards := ClaimInCards(cards, day);
    }
  }
}
