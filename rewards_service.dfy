/**
 * The reward catalogue and reroll service (src/features/dailyRewards/service/dailyRewardsService.ts).
 * The seed tables are constants; the service object keeps them in arrays that
 * its getters copy. `Math.random` is replaced by explicit pool indices ("picks").
 */
module RewardsService {
  import opened Wrappers
  import opened RewardTypes

  /** RewardConfig: one entry of the reroll pool. */
  datatype RewardConfig = RewardConfig(rewardType: RewardType, rewardAmount: int)

  const PossibleRewards: seq<RewardConfig> := [
    RewardConfig(Coins, 100),
    RewardConfig(Gems, 50),
    RewardConfig(Tokens, 25),
    RewardConfig(XP, 200)
  ]

  const InitialCards: seq<CardData> := [
    CardData(1, Free, Coins, 100, None),
    CardData(2, Free, Gems, 150, None),
    CardData(3, Free, Gems, 75, None),
    CardData(4, Locked, Gems, 75, None)
  ]

  /** getMaxRerolls. */
  const MaxRerolls: int := 3

  /** getCurrentDay: the code returns 3 (its comment speaks of day 2). */
  const CurrentDay: int := 3

  function RewardOf(card: CardData): RewardConfig {
    RewardConfig(card.rewardType, card.rewardAmount)
  }

  /**
   * The random draws of one generateRandomRewards call: one pool index per card,
   * each in [0, |PossibleRewards|) as `Math.floor(Math.random() * length)` is.
   */
  predicate ValidPicks(picks: seq<nat>, cardCount: nat) {
    |picks| == cardCount && forall i :: 0 <= i < |picks| ==> picks[i] < |PossibleRewards|
  }

  /** The per-card callback of generateRandomRewards' `map`. */
  function RerollCard(card: CardData, pick: nat): (r: CardData)
    requires pick < |PossibleRewards|
    ensures r.day == card.day && r.cardType == card.cardType && r.claimed == card.claimed
    ensures IsClaimed(card) ==> r == card
    ensures !IsClaimed(card) ==> RewardOf(r) == PossibleRewards[pick]
  {
    if IsClaimed(card) then card
    else card.(rewardType := PossibleRewards[pick].rewardType, rewardAmount := PossibleRewards[pick].rewardAmount)
  }

  /**
   * generateRandomRewards: same length and order; a claimed card comes back as it
   * was; every other card keeps day, type and flag and takes the drawn pool entry.
   */
  function GenerateRandomRewards(cards: seq<CardData>, picks: seq<nat>): (r: seq<CardData>)
    requires ValidPicks(picks, |cards|)
    ensures |r| == |cards|
    ensures forall i :: 0 <= i < |cards| ==>
      r[i].day == cards[i].day && r[i].cardType == cards[i].cardType && r[i].claimed == cards[i].claimed
    ensures forall i :: 0 <= i < |cards| && IsClaimed(cards[i]) ==> r[i] == cards[i]
    ensures forall i :: 0 <= i < |cards| && !IsClaimed(cards[i]) ==> RewardOf(r[i]) == PossibleRewards[picks[i]]
  {
    seq(|cards|, i requires 0 <= i < |cards| => RerollCard(cards[i], picks[i]))
  }

  /** Whatever the draws, an unclaimed card ends up holding one of the four pool entries. */
  lemma RerolledRewardComesFromPool(cards: seq<CardData>, picks: seq<nat>, i: nat)
    requires ValidPicks(picks, |cards|) && i < |cards| && !IsClaimed(cards[i])
    ensures exists k :: 0 <= k < |PossibleRewards| && RewardOf(GenerateRandomRewards(cards, picks)[i]) == PossibleRewards[k]
  {
    var k := picks[i];
    assert RewardOf(GenerateRandomRewards(cards, picks)[i]) == PossibleRewards[k];
  }

  /** Only `claimed` is tested: the locked day-4 seed card is rerolled like the others. */
  lemma LockedUnclaimedCardIsRerolled()
    ensures GenerateRandomRewards(InitialCards, [0, 0, 0, 0])[3] == CardData(4, Locked, Coins, 100, None)
  {
    assert ValidPicks([0, 0, 0, 0], |InitialCards|);
  }

  /** Days 1 to 4 in strictly ascending order, three Free then one Locked, none claimed. */
  lemma InitialCardsShape()
    ensures |InitialCards| == 4
    ensures forall i :: 0 <= i < |InitialCards| ==> InitialCards[i].day == i + 1 && !IsClaimed(InitialCards[i])
    ensures forall i, j :: 0 <= i < j < |InitialCards| ==> InitialCards[i].day < InitialCards[j].day
    ensures forall i :: 0 <= i < |InitialCards| ==> (InitialCards[i].cardType == Locked <==> i == 3)
    ensures forall i :: 0 <= i < 3 ==> InitialCards[i].cardType == Free
  {
  }

  /** The hard-coded current day names exactly one seed card, a Free one. */
  lemma CurrentDayIsOneFreeSeedCard()
    ensures exists i :: 0 <= i < |InitialCards| && InitialCards[i].day == CurrentDay && InitialCards[i].cardType == Free
    ensures forall i, j ::
      (0 <= i < |InitialCards| && 0 <= j < |InitialCards| &&
       InitialCards[i].day == CurrentDay && InitialCards[j].day == CurrentDay) ==> i == j
  {
    assert InitialCards[2].day == CurrentDay;
  }

  /** DailyRewardsService: the two private tables, held in arrays. */
  class DailyRewardsService {
    const possibleRewards: array<RewardConfig>
    const initialCards: array<CardData>

    ghost predicate Valid()
      reads possibleRewards, initialCards
    {
      possibleRewards[..] == PossibleRewards && initialCards[..] == InitialCards
    }

    /** The private constructor, reached only through ServiceRegistry.GetInstance. */
    constructor ()
      ensures Valid() && fresh(possibleRewards) && fresh(initialCards)
    {
      possibleRewards := new RewardConfig[|PossibleRewards|](i requires 0 <= i < |PossibleRewards| => PossibleRewards[i]);
      initialCards := new CardData[|InitialCards|](i requires 0 <= i < |InitialCards| => InitialCards[i]);
    }

    /** getInitialCards: `[...this.initialCards]`, a new array with the seed cards. */
    method GetInitialCards() returns (cards: array<CardData>)
      requires Valid()
      ensures fresh(cards) && cards[..] == InitialCards
    {
      cards := new CardData[initialCards.Length];
      var i := 0;
      while i < initialCards.Length
        invariant 0 <= i <= initialCards.Length
        invariant forall k :: 0 <= k < i ==> cards[k] == initialCards[k]
      {
        cards[i] := initialCards[i];
        i := i + 1;
      }
    }

    /** getPossibleRewards: `[...this.possibleRewards]`. */
    method GetPossibleRewards() returns (rewards: array<RewardConfig>)
      requires Valid()
      ensures fresh(rewards) && rewards[..] == PossibleRewards
    {
      rewards := new RewardConfig[possibleRewards.Length];
      var i := 0;
      while i < possibleRewards.Length
        invariant 0 <= i <= possibleRewards.Length
        invariant forall k :: 0 <= k < i ==> rewards[k] == possibleRewards[k]
      {
        rewards[i] := possibleRewards[i];
        i := i + 1;
      }
    }
  }

  /** A caller that overwrites the copies it was given leaves the service's tables as they were. */
  method OverwriteCopies(service: DailyRewardsService) returns (cards: array<CardData>, rewards: array<RewardConfig>)
    requires service.Valid()
    ensures service.Valid()
    ensures cards[..] == [CardData(9, Premium, XP, 0, Some(true))] + InitialCards[1..]
    ensures rewards[..] == [RewardConfig(XP, 0)] + PossibleRewards[1..]
  {
    cards := service.GetInitialCards();
    rewards := service.GetPossibleRewards();
    cards[0] := CardData(9, Premium, XP, 0, Some(true));
    rewards[0] := RewardConfig(XP, 0);
  }

  /** The class-level `static instance` slot of the singleton. */
  class ServiceRegistry {
    var instance: DailyRewardsService?

    ghost predicate Valid()
      reads this, if instance == null then {} else {instance.possibleRewards as object, instance.initialCards}
    {
      instance != null ==> instance.Valid()
    }

    constructor ()
      ensures Valid() && instance == null
    {
      instance := null;
    }

    /** getInstance: creates the service on first use and hands back that same object afterwards. */
    method GetInstance() returns (service: DailyRewardsService)
      requires Valid()
      modifies this
      ensures Valid() && instance == service && service.Valid()
      ensures old(instance) != null ==> service == old(instance)
      ensures old(instance) == null ==> fresh(service)
    {
      if instance == null {
        instance := new DailyRewardsService();
      }
      service := instance;
    }
  }

  /** Two calls of getInstance return one and the same object. */
  method GetInstanceTwice(registry: ServiceRegistry) returns (first: DailyRewardsService, second: DailyRewardsService)
    requires registry.Valid()
    modifies registry
    ensures first == second && first.Valid()
  {
    first := registry.GetInstance();
    second := registry.GetInstance();
  }
}
