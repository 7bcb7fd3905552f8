/**
 * One reward card (src/features/dailyRewards/components/DailyRewardCard.tsx): the
 * render-time case analysis (icon, button, labels) as functions, and the card's
 * remembered values (the refs of its claim and reroll springs and the
 * `displayedReward` state) as a class whose methods are the effects and the
 * animation continuations.
 */
module RewardCard {
  import opened Wrappers
  import opened Text
  import opened RewardTypes
  import opened RewardsService
  import opened ClaimButton

  /** DailyRewardCardProps; `hasOnClaim` says whether an onClaim callback was passed. */
  datatype CardProps = CardProps(
    day: int,
    cardType: CardType,
    rewardType: RewardType,
    rewardAmount: int,
    claimed: Option<bool>,
    isCurrentDay: Option<bool>,
    hasOnClaim: bool)

  /** The `claimed = false` default of the props destructuring. */
  predicate Claimed(p: CardProps) {
    p.claimed.GetOr(false)
  }

  predicate IsLocked(p: CardProps) {
    p.cardType == Locked
  }

  function PropsReward(p: CardProps): RewardConfig {
    RewardConfig(p.rewardType, p.rewardAmount)
  }

  /** displayDay. */
  function DisplayDay(day: int): string {
    "DAY " + IntToDecimal(day)
  }

  /** Different days are displayed differently. */
  lemma DisplayDayInjective(a: int, b: int)
    requires DisplayDay(a) == DisplayDay(b)
    ensures a == b
  {
    DropPrefix("DAY ", IntToDecimal(a), IntToDecimal(b));
    IntToDecimalInjective(a, b);
  }

  /** The claim label, which depends on the media size (a parameter here): never empty. */
  function ClaimLabel(isMobile: bool): (text: string)
    ensures text != ""
    ensures text != "CLAIMED"
  {
    if isMobile then "Get" else "CLAIM"
  }

  /** renderIcon: a lock for a Locked card, otherwise the icon of the props' reward kind. */
  function RenderIcon(p: CardProps): (icon: IconType)
    ensures icon == Lock <==> IsLocked(p)
    ensures !IsLocked(p) ==> icon == IconForReward(p.rewardType)
  {
    if IsLocked(p) then Lock else IconForReward(p.rewardType)
  }

  /**
   * What renderButtonContent produces: the LOCKED status text, or a ClaimButton with
   * its props and the day that its onClaim (the card's handleClaim) forwards, if any.
   */
  datatype ButtonContent =
    | LockedStatus
    | ClaimButtonElement(button: ClaimButtonProps, forwardsDay: Option<int>)

  /**
   * renderButtonContent(displayed): Locked gives no button; a claimed card gives a
   * disabled button without onClaim (its child is the CLAIMED stamp); any other card
   * gives an enabled button whose onClaim is handleClaim, forwarding the card's day to
   * the card's own onClaim when one was passed.
   */
  function RenderButtonContent(p: CardProps, displayed: RewardConfig, claimLabel: string): (c: ButtonContent)
    ensures c.LockedStatus? <==> IsLocked(p)
    ensures c.ClaimButtonElement? ==>
      c.button.rewardType == displayed.rewardType && c.button.amount == displayed.rewardAmount
      && !c.button.hasOnClick
    ensures c.ClaimButtonElement? ==> (c.button.disabled <==> Claimed(p))
    ensures c.ClaimButtonElement? ==> (c.button.hasOnClaim <==> !Claimed(p))
    ensures c.ClaimButtonElement? ==> (c.forwardsDay.Some? <==> !Claimed(p) && p.hasOnClaim)
    ensures c.ClaimButtonElement? && c.forwardsDay.Some? ==> c.forwardsDay.value == p.day
  {
    if IsLocked(p) then LockedStatus
    else if Claimed(p) then
      ClaimButtonElement(ClaimButtonProps(displayed.rewardType, displayed.rewardAmount, true, false, false, Some("CLAIMED")), None)
    else
      ClaimButtonElement(
        ClaimButtonProps(displayed.rewardType, displayed.rewardAmount, false, true, false, Some(claimLabel)),
        if p.hasOnClaim then Some(p.day) else None)
  }

  /**
   * An unclaimed card's button reads the media-dependent claim label, a claimed card's
   * the CLAIMED stamp: the label is never empty, so ClaimButton's default is not used.
   */
  lemma ButtonShowsCardLabel(p: CardProps, displayed: RewardConfig, isMobile: bool)
    requires !IsLocked(p)
    ensures var c := RenderButtonContent(p, displayed, ClaimLabel(isMobile));
            Label(c.button) == if Claimed(p) then "CLAIMED" else ClaimLabel(isMobile)
  {
  }

  /** The tail of the card's aria-label: locked wins over claimed. */
  function StatusSuffix(isLocked: bool, claimed: bool): string {
    if isLocked then " (locked)" else if claimed then " (claimed)" else ""
  }

  /** The suffix tells the three card states apart. */
  lemma StatusSuffixDistinguishes(l1: bool, c1: bool, l2: bool, c2: bool)
    requires StatusSuffix(l1, c1) == StatusSuffix(l2, c2)
    ensures l1 == l2 && (!l1 ==> c1 == c2)
  {
    assert " (locked)"[2] != " (claimed)"[2];
  }

  /** The card's aria-label; it reads the props, not the displayed reward. */
  function CardAriaLabel(p: CardProps): string {
    "Day " + (IntToDecimal(p.day) + (" reward: " + (IntToDecimal(p.rewardAmount) + (" "
      + (RewardTypeValue(p.rewardType) + StatusSuffix(IsLocked(p), Claimed(p)))))))
  }

  lemma RewardTypeValueHasNoSpace(t: RewardType)
    ensures HasNoSpace(RewardTypeValue(t))
  {
  }

  /** The layout of the card's aria-label can be taken apart field by field. */
  lemma CardLabelFields(dp: string, ap: string, tp: string, sp: string, dq: string, aq: string, tq: string, sq: string)
    requires HasNoSpace(dp) && HasNoSpace(ap) && HasNoSpace(tp) && HasNoSpace(dq) && HasNoSpace(aq) && HasNoSpace(tq)
    requires (sp == [] || sp[0] == ' ') && (sq == [] || sq[0] == ' ')
    requires "Day " + (dp + (" reward: " + (ap + (" " + (tp + sp)))))
          == "Day " + (dq + (" reward: " + (aq + (" " + (tq + sq)))))
    ensures dp == dq && ap == aq && tp == tq && sp == sq
  {
    var restp, restq := ap + (" " + (tp + sp)), aq + (" " + (tq + sq));
    DropPrefix("Day ", dp + (" reward: " + restp), dq + (" reward: " + restq));
    assert " reward: " + restp == " " + ("reward: " + restp);
    assert " reward: " + restq == " " + ("reward: " + restq);
    SplitAtSpace(dp, "reward: " + restp, dq, "reward: " + restq);
    DropPrefix("reward: ", restp, restq);
    SplitAtSpace(ap, tp + sp, aq, tq + sq);
    SplitBeforeSpace(tp, sp, tq, sq);
  }

  /**
   * The card's aria-label tells its day, amount and reward kind, whether it is locked,
   * and, when it is not, whether it is claimed.
   */
  lemma CardAriaLabelDetermines(p: CardProps, q: CardProps)
    requires CardAriaLabel(p) == CardAriaLabel(q)
    ensures p.day == q.day && p.rewardAmount == q.rewardAmount && p.rewardType == q.rewardType
    ensures IsLocked(p) == IsLocked(q) && (!IsLocked(p) ==> Claimed(p) == Claimed(q))
  {
    RewardTypeValueHasNoSpace(p.rewardType);
    RewardTypeValueHasNoSpace(q.rewardType);
    CardLabelFields(IntToDecimal(p.day), IntToDecimal(p.rewardAmount), RewardTypeValue(p.rewardType),
                    StatusSuffix(IsLocked(p), Claimed(p)),
                    IntToDecimal(q.day), IntToDecimal(q.rewardAmount), RewardTypeValue(q.rewardType),
                    StatusSuffix(IsLocked(q), Claimed(q)));
    IntToDecimalInjective(p.day, q.day);
    IntToDecimalInjective(p.rewardAmount, q.rewardAmount);
    RewardTypeValueInjective(p.rewardType, q.rewardType);
    StatusSuffixDistinguishes(IsLocked(p), Claimed(p), IsLocked(q), Claimed(q));
  }

  /** The useClaimSpring effect's test: bounce only on a false-to-true edge. */
  predicate ClaimBounceStarts(prevClaimed: bool, claimed: bool) {
    claimed && !prevClaimed
  }

  /** The bounces started while the effect sees `claims`, one value per run, starting from `prev`. */
  function BounceCount(prev: bool, claims: seq<bool>): nat
    decreases |claims|
  {
    if claims == [] then 0
    else (if ClaimBounceStarts(prev, claims[0]) then 1 else 0) + BounceCount(claims[0], claims[1..])
  }

  /** Once true, stays true: the only way the board ever changes a claimed flag. */
  predicate MonotoneFlags(flags: seq<bool>) {
    forall i, j :: 0 <= i < j < |flags| && flags[i] ==> flags[j]
  }

  /**
   * While the flag only ever goes from false to true, a card bounces exactly once if it
   * ends up claimed after having been unclaimed, and never while it stays claimed.
   */
  lemma {:induction false} BounceAtMostOnce(prev: bool, claims: seq<bool>)
    requires MonotoneFlags([prev] + claims)
    ensures BounceCount(prev, claims) == if !prev && true in claims then 1 else 0
    decreases |claims|
  {
    if claims != [] {
      var rest := claims[1..];
      assert [claims[0]] + rest == ([prev] + claims)[1..];
      assert MonotoneFlags([claims[0]] + rest);
      BounceAtMostOnce(claims[0], rest);
      assert claims == [claims[0]] + rest;
      assert (true in claims) <==> claims[0] || true in rest;
      if prev {
        var flags := [prev] + claims;
        assert flags[0] && flags[1] == claims[0];
      }
    }
  }

  /** The useRerollSpring effect's test: a different amount or a different kind. */
  predicate RewardChanged(prevAmount: int, prevType: RewardType, amount: int, rewardType: RewardType) {
    prevAmount != amount || prevType != rewardType
  }

  /**
   * The reroll flip: Steady, FadingOut until the first `next` step ends (the card still
   * shows the old reward), then FadingIn after the swap.
   */
  datatype FlipPhase = Steady | FadingOut(incoming: RewardConfig) | FadingIn

  /** A mounted card: the refs of its claim and reroll springs, displayedReward and the flip track. */
  class DailyRewardCardView {
    var prevClaimed: bool
    var prevRewardAmount: int
    var prevRewardType: RewardType
    var displayedReward: RewardConfig
    var flip: FlipPhase

    /** The reward pair the reroll refs last recorded. */
    function LastSeenReward(): RewardConfig
      reads this
    {
      RewardConfig(prevRewardType, prevRewardAmount)
    }

    /**
     * The displayed reward lags the props only while a flip fades out, and that flip
     * then carries the latest props.
     */
    ghost predicate Valid()
      reads this
    {
      match flip
      case FadingOut(incoming) => incoming == LastSeenReward()
      case _ => displayedReward == LastSeenReward()
    }

    /** Mount: refs and displayedReward start from the props; the mount effects start nothing. */
    constructor (p: CardProps)
      ensures Valid() && flip == Steady
      ensures prevClaimed == Claimed(p) && LastSeenReward() == PropsReward(p) && displayedReward == PropsReward(p)
    {
      prevClaimed := Claimed(p);
      prevRewardAmount := p.rewardAmount;
      prevRewardType := p.rewardType;
      displayedReward := PropsReward(p);
      flip := Steady;
    }

    /** The useClaimSpring effect: start the bounce on a rising edge, then record the flag. */
    method ClaimEffect(claimed: bool) returns (bounce: bool)
      requires Valid()
      modifies this`prevClaimed
      ensures Valid()
      ensures bounce == ClaimBounceStarts(old(prevClaimed), claimed)
      ensures prevClaimed == claimed
    {
      bounce := claimed && !prevClaimed;
      prevClaimed := claimed;
    }

    /** The useRerollSpring effect: start a flip on a change, then record the pair. */
    method RerollEffect(rewardAmount: int, rewardType: RewardType) returns (flipStarted: bool)
      requires Valid()
      modifies this`prevRewardAmount, this`prevRewardType, this`flip
      ensures Valid()
      ensures flipStarted == RewardChanged(old(prevRewardAmount), old(prevRewardType), rewardAmount, rewardType)
      ensures LastSeenReward() == RewardConfig(rewardType, rewardAmount)
      ensures flipStarted ==> flip == FadingOut(RewardConfig(rewardType, rewardAmount))
      ensures !flipStarted ==> flip == old(flip)
      ensures displayedReward == old(displayedReward)
    {
      flipStarted := prevRewardAmount != rewardAmount || prevRewardType != rewardType;
      if flipStarted {
        flip := FadingOut(RewardConfig(rewardType, rewardAmount));
      }
      prevRewardAmount := rewardAmount;
      prevRewardType := rewardType;
    }

    /** The effects after a render with props `p`, in declaration order. */
    method AfterRender(p: CardProps) returns (bounce: bool, flipStarted: bool)
      requires Valid()
      modifies this
      ensures Valid()
      ensures bounce == ClaimBounceStarts(old(prevClaimed), Claimed(p)) && prevClaimed == Claimed(p)
      ensures flipStarted <==> old(LastSeenReward()) != PropsReward(p)
      ensures LastSeenReward() == PropsReward(p) && displayedReward == old(displayedReward)
      ensures flipStarted ==> flip == FadingOut(PropsReward(p))
      ensures !flipStarted ==> flip == old(flip)
    {
      bounce := ClaimEffect(Claimed(p));
      flipStarted := RerollEffect(p.rewardAmount, p.rewardType);
    }

    /** The first `next` step (fade out) ends: now the new reward is shown, and the fade-in starts. */
    method FadeOutFinished()
      requires Valid() && flip.FadingOut?
      modifies this`displayedReward, this`flip
      ensures Valid() && flip == FadingIn
      ensures displayedReward == old(flip).incoming == LastSeenReward()
    {
      displayedReward := flip.incoming;
      flip := FadingIn;
    }

    /** The second `next` step (fade in) ends. */
    method FadeInFinished()
      requires Valid() && flip.FadingIn?
      modifies this`flip
      ensures Valid() && flip == Steady
      ensures displayedReward == LastSeenReward()
    {
      flip := Steady;
    }
  }
}
