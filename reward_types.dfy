/**
 * The daily-rewards vocabulary: card kinds, reward kinds, icon kinds, the
 * fixed reward-to-icon table, and the card record (src/features/dailyRewards/types.ts).
 * Enum members are string-valued in the source; the value functions give those strings.
 */
module RewardTypes {
  import opened Wrappers

  datatype CardType = Free | Premium | Locked

  datatype RewardType = Coins | Gems | Tokens | XP

  datatype IconType = Star | Crown | Gem | Lock

  function CardTypeValue(t: CardType): string {
    match t
    case Free => "free"
    case Premium => "premium"
    case Locked => "locked"
  }

  function RewardTypeValue(t: RewardType): string {
    match t
    case Coins => "COINS"
    case Gems => "GEMS"
    case Tokens => "TOKENS"
    case XP => "XP"
  }

  function IconTypeValue(t: IconType): string {
    match t
    case Star => "star"
    case Crown => "crown"
    case Gem => "gem"
    case Lock => "lock"
  }

  /** Decoding an enum string; a string no member carries has no decoding. */
  function ParseCardType(s: string): (r: Option<CardType>)
    ensures r.Some? ==> CardTypeValue(r.value) == s
  {
    if s == "free" then Some(Free)
    else if s == "premium" then Some(Premium)
    else if s == "locked" then Some(Locked)
    else None
  }

  function ParseRewardType(s: string): (r: Option<RewardType>)
    ensures r.Some? ==> RewardTypeValue(r.value) == s
  {
    if s == "COINS" then Some(Coins)
    else if s == "GEMS" then Some(Gems)
    else if s == "TOKENS" then Some(Tokens)
    else if s == "XP" then Some(XP)
    else None
  }

  /** Every enum value decodes back to its member, so the string encodings are injective. */
  lemma CardTypeRoundTrip(t: CardType)
    ensures ParseCardType(CardTypeValue(t)) == Some(t)
  {
  }

  lemma RewardTypeRoundTrip(t: RewardType)
    ensures ParseRewardType(RewardTypeValue(t)) == Some(t)
  {
  }

  lemma RewardTypeValueInjective(a: RewardType, b: RewardType)
    requires RewardTypeValue(a) == RewardTypeValue(b)
    ensures a == b
  {
    RewardTypeRoundTrip(a);
    RewardTypeRoundTrip(b);
  }

  lemma CardTypeValueInjective(a: CardType, b: CardType)
    requires CardTypeValue(a) == CardTypeValue(b)
    ensures a == b
  {
    CardTypeRoundTrip(a);
    CardTypeRoundTrip(b);
  }

  /** REWARD_ICON_MAP and getIconTypeForReward: a total lookup that never shows a lock. */
  function IconForReward(t: RewardType): (icon: IconType)
    ensures icon != Lock
    ensures icon == Star <==> t == Coins || t == XP
    ensures icon == Gem <==> t == Gems
    ensures icon == Crown <==> t == Tokens
  {
    match t
    case Coins => Star
    case Gems => Gem
    case Tokens => Crown
    case XP => Star
  }

  /** The icon table is not injective: coins and experience share the star. */
  lemma IconForRewardNotInjective()
    ensures exists a: RewardType, b: RewardType :: a != b && IconForReward(a) == IconForReward(b)
  {
    assert IconForReward(Coins) == IconForReward(XP);
  }

  /** CardData; `claimed` is an optional field of the record. */
  datatype CardData = CardData(
    day: int,
    cardType: CardType,
    rewardType: RewardType,
    rewardAmount: int,
    claimed: Option<bool>)

  /**
   * How every reader treats `claimed`: JavaScript truthiness in
   * generateRandomRewards, the `claimed = false` default in DailyRewardCard.
   */
  predicate IsClaimed(card: CardData) {
    card.claimed == Some(true)
  }

  /** An absent flag reads exactly like an explicit false. */
  lemma AbsentClaimedReadsAsFalse(card: CardData)
    ensures IsClaimed(card.(claimed := None)) == IsClaimed(card.(claimed := Some(false))) == false
  {
  }
}
