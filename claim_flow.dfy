/**
 * The claim path as the screen wires it: DailyRewardsScreen renders one
 * DailyRewardCard per board card with `onClaim = claimReward`; the card renders a
 * ClaimButton (or none); the button's click credits the wallet and calls the card's
 * handleClaim, which calls claimReward(day). The guards against claiming a Locked
 * card or claiming twice live in the card's render, not in claimReward; the lemmas
 * here show that the whole chain credits each card at most once.
 */
module ClaimFlow {
  import opened Wrappers
  import opened RewardTypes
  import opened RewardsService
  import opened ScreenModel
  import opened Currency
  import opened ClaimButton
  import opened RewardCard

  /** The props DailyRewardsScreen gives the card for a board entry. */
  function CardPropsOf(card: CardData): (p: CardProps)
    ensures Claimed(p) == IsClaimed(card) && (IsLocked(p) <==> card.cardType == Locked)
    ensures p.day == card.day && p.hasOnClaim
    ensures p.isCurrentDay == Some(card.day == CurrentDay)
  {
    CardProps(card.day, card.cardType, card.rewardType, card.rewardAmount, card.claimed, Some(IsCurrentDay(card)), true)
  }

  /** What one click did: the new board, the new balances and the credits made. */
  datatype ClickOutcome = ClickOutcome(board: Board, wallet: CurrencyState, credits: seq<Credit>)

  /**
   * A click on the claim control of card i while the card shows `displayed`
   * (its displayedReward; the claim label does not matter to the outcome).
   */
  function ClickClaim(b: Board, w: CurrencyState, i: nat, displayed: RewardConfig): (o: ClickOutcome)
    requires i < |b.cards|
    ensures |o.board.cards| == |b.cards| && o.board.rerollCount == b.rerollCount
    ensures o.wallet == ApplyCredits(w, o.credits)
    ensures |o.credits| <= 1
    ensures o.credits != [] ==> o.credits[0] == CreditFor(displayed.rewardType, displayed.rewardAmount)
  {
    match RenderButtonContent(CardPropsOf(b.cards[i]), displayed, ClaimLabel(false))
    case LockedStatus => ClickOutcome(b, w, [])
    case ClaimButtonElement(button, forwardsDay) =>
      var effects := ClickEffects(button);
      ClickEffectsSpec(button);
      var credits := CreditsOf(effects);
      var board := if OnClaimCalled in effects && forwardsDay.Some? then ApplyClaim(b, forwardsDay.value) else b;
      ClickOutcome(board, ApplyCredits(w, credits), credits)
  }

  /**
   * A Locked or already claimed card: the click changes nothing. Any other card: exactly
   * one credit, of the displayed reward, and then its day is claimed on the board.
   */
  lemma ClickClaimSpec(b: Board, w: CurrencyState, i: nat, displayed: RewardConfig)
    requires i < |b.cards|
    ensures b.cards[i].cardType == Locked || IsClaimed(b.cards[i]) ==> ClickClaim(b, w, i, displayed) == ClickOutcome(b, w, [])
    ensures b.cards[i].cardType != Locked && !IsClaimed(b.cards[i]) ==>
      var credit := CreditFor(displayed.rewardType, displayed.rewardAmount);
      ClickClaim(b, w, i, displayed) == ClickOutcome(ApplyClaim(b, b.cards[i].day), ApplyCredit(w, credit), [credit])
  {
    var content := RenderButtonContent(CardPropsOf(b.cards[i]), displayed, ClaimLabel(false));
    if content.ClaimButtonElement? {
      ClickEffectsSpec(content.button);
      if !content.button.disabled {
        var credit := CreditFor(displayed.rewardType, displayed.rewardAmount);
        assert ApplyCredits(w, [credit]) == ApplyCredits(ApplyCredit(w, credit), []);
      }
    }
  }

  /** The chain itself, on the screen's board, the provider's wallet and card i's mounted view. */
  method ClickClaimOnCard(model: DailyRewardsScreenModel, wallet: CurrencyProvider, view: DailyRewardCardView, i: nat)
    returns (credits: seq<Credit>)
    requires model.Valid() && i < |model.cards|
    modifies model, wallet
    ensures model.Valid()
    ensures ClickOutcome(model.State(), wallet.currency, credits)
         == ClickClaim(old(model.State()), old(wallet.currency), i, view.displayedReward)
  {
    var content := RenderButtonContent(CardPropsOf(model.cards[i]), view.displayedReward, ClaimLabel(false));
    if content.LockedStatus? {
      // no button is rendered, so there is nothing to click
      return [];
    }
    var effects := HandleClick(wallet, content.button);
    credits := CreditsOf(effects);
    if OnClaimCalled in effects && content.forwardsDay.Some? {
      // onClaim is the card's handleClaim, which calls the screen's claimReward(day)
      model.ClaimReward(content.forwardsDay.value);
    }
  }

  /** Two clicks on the same card credit once: the first claims it, the second finds it claimed. */
  lemma SecondClickCreditsNothing(b: Board, w: CurrencyState, i: nat, first: RewardConfig, second: RewardConfig)
    requires i < |b.cards|
    ensures var o := ClickClaim(b, w, i, first);
            ClickClaim(o.board, o.wallet, i, second) == ClickOutcome(o.board, o.wallet, [])
  {
    ClickClaimSpec(b, w, i, first);
    var o := ClickClaim(b, w, i, first);
    ClickClaimSpec(o.board, o.wallet, i, second);
  }

  /** A user action on the screen: a click on card i's claim control, or a reroll. */
  datatype SessionAction = Click(index: nat, displayed: RewardConfig) | Reroll(picks: seq<nat>)

  predicate ActionFits(a: SessionAction, cardCount: nat) {
    match a
    case Click(i, _) => i < cardCount
    case Reroll(picks) => ValidPicks(picks, cardCount)
  }

  predicate SessionFits(actions: seq<SessionAction>, cardCount: nat) {
    forall k :: 0 <= k < |actions| ==> ActionFits(actions[k], cardCount)
  }

  /** Board and wallet after some actions, with every credit made and the position of the card it paid for. */
  datatype Session = Session(board: Board, wallet: CurrencyState, credits: seq<Credit>, paidCards: seq<nat>)

  /** One action: a click appends its credit, if any, and the clicked position; a reroll pays nothing. */
  function Step(s: Session, a: SessionAction): (r: Session)
    requires ActionFits(a, |s.board.cards|)
    ensures |r.board.cards| == |s.board.cards|
    ensures s.credits <= r.credits && s.paidCards <= r.paidCards
    ensures |r.credits| - |s.credits| == |r.paidCards| - |s.paidCards| <= 1
    ensures a.Reroll? ==> r.credits == s.credits && r.paidCards == s.paidCards && r.wallet == s.wallet
  {
    match a
    case Click(i, displayed) =>
      var o := ClickClaim(s.board, s.wallet, i, displayed);
      ClickClaimSpec(s.board, s.wallet, i, displayed);
      Session(o.board, o.wallet, s.credits + o.credits, s.paidCards + (if o.credits == [] then [] else [i]))
    case Reroll(picks) => s.(board := ApplyReroll(s.board, picks))
  }

  /** The actions in order; credits and paid positions are only ever appended to. */
  function RunSession(s: Session, actions: seq<SessionAction>): (r: Session)
    requires SessionFits(actions, |s.board.cards|)
    ensures |r.board.cards| == |s.board.cards|
    ensures s.credits <= r.credits && s.paidCards <= r.paidCards
    ensures |r.credits| - |s.credits| == |r.paidCards| - |s.paidCards| <= |actions|
    decreases |actions|
  {
    if actions == [] then s else RunSession(Step(s, actions[0]), actions[1..])
  }

  /**
   * What holds of a session that started from board `b0` and wallet `w0`: the wallet is
   * the start plus the credits; one paid position per credit; every paid card is an
   * unlocked card that was unclaimed at the start and is claimed now; no position is
   * paid twice; cards claimed at the start are still claimed.
   */
  ghost predicate SessionInvariant(b0: Board, w0: CurrencyState, s: Session) {
    && |s.board.cards| == |b0.cards|
    && s.wallet == ApplyCredits(w0, s.credits)
    && |s.credits| == |s.paidCards|
    && (forall k :: 0 <= k < |s.paidCards| ==>
          && s.paidCards[k] < |b0.cards|
          && IsClaimed(s.board.cards[s.paidCards[k]])
          && s.board.cards[s.paidCards[k]].cardType != Locked
          && !IsClaimed(b0.cards[s.paidCards[k]]))
    && (forall k, l :: 0 <= k < l < |s.paidCards| ==> s.paidCards[k] != s.paidCards[l])
    && (forall i :: 0 <= i < |b0.cards| ==>
          && s.board.cards[i].day == b0.cards[i].day
          && s.board.cards[i].cardType == b0.cards[i].cardType
          && (IsClaimed(b0.cards[i]) ==> IsClaimed(s.board.cards[i])))
  }

  /** No action changes a card's day or type, or unclaims a card. */
  lemma StepKeepsCards(s: Session, a: SessionAction)
    requires ActionFits(a, |s.board.cards|)
    ensures var r := Step(s, a);
            forall i :: 0 <= i < |s.board.cards| ==>
              && r.board.cards[i].day == s.board.cards[i].day
              && r.board.cards[i].cardType == s.board.cards[i].cardType
              && (IsClaimed(s.board.cards[i]) ==> IsClaimed(r.board.cards[i]))
  {
    match a
    case Click(i, displayed) =>
      ClickClaimSpec(s.board, s.wallet, i, displayed);
    case Reroll(picks) =>
  }

  lemma StepKeepsInvariant(b0: Board, w0: CurrencyState, s: Session, a: SessionAction)
    requires SessionInvariant(b0, w0, s) && ActionFits(a, |s.board.cards|)
    ensures SessionInvariant(b0, w0, Step(s, a))
  {
    var r := Step(s, a);
    StepKeepsCards(s, a);
    match a
    case Click(i, displayed) =>
      ClickClaimSpec(s.board, s.wallet, i, displayed);
      var o := ClickClaim(s.board, s.wallet, i, displayed);
      ApplyCreditsConcat(w0, s.credits, o.credits);
      if o.credits != [] {
        assert r.board == ApplyClaim(s.board, s.board.cards[i].day);
        assert IsClaimed(r.board.cards[i]);
        forall k | 0 <= k < |s.paidCards|
          ensures s.paidCards[k] != i
        {
          assert IsClaimed(s.board.cards[s.paidCards[k]]);
        }
        assert r.paidCards == s.paidCards + [i];
      } else {
        assert r.board == s.board && r.paidCards == s.paidCards;
      }
    case Reroll(picks) =>
  }

  lemma {:induction false} RunKeepsInvariant(b0: Board, w0: CurrencyState, s: Session, actions: seq<SessionAction>)
    requires SessionInvariant(b0, w0, s) && SessionFits(actions, |s.board.cards|)
    ensures SessionInvariant(b0, w0, RunSession(s, actions))
    decreases |actions|
  {
    if actions != [] {
      StepKeepsInvariant(b0, w0, s, actions[0]);
      RunKeepsInvariant(b0, w0, Step(s, actions[0]), actions[1..]);
    }
  }

  /**
   * Whatever sequence of claim clicks and rerolls the user performs, each card is paid
   * for at most once, a Locked card or a card claimed beforehand never, every paid card
   * ends claimed, and the balances are the start plus exactly the credits made.
   */
  lemma CreditAtMostOncePerCard(b: Board, w: CurrencyState, actions: seq<SessionAction>)
    requires SessionFits(actions, |b.cards|)
    ensures var s := RunSession(Session(b, w, [], []), actions);
      && s.wallet == ApplyCredits(w, s.credits)
      && |s.credits| == |s.paidCards|
      && (forall k, l :: 0 <= k < l < |s.paidCards| ==> s.paidCards[k] != s.paidCards[l])
      && (forall k :: 0 <= k < |s.paidCards| ==>
            s.paidCards[k] < |b.cards| && b.cards[s.paidCards[k]].cardType != Locked
            && !IsClaimed(b.cards[s.paidCards[k]]) && IsClaimed(s.board.cards[s.paidCards[k]]))
  {
    RunKeepsInvariant(b, w, Session(b, w, [], []), actions);
  }

  /** No two cards of the board share a day. */
  predicate DistinctDays(b: Board) {
    forall i, j :: 0 <= i < j < |b.cards| ==> b.cards[i].day != b.cards[j].day
  }

  /** The seed board is such a board. */
  lemma SeedBoardHasDistinctDays()
    ensures DistinctDays(InitialBoard())
  {
  }

  /**
   * The converse of the payment facts: every card claimed during the session was paid
   * for, and a Locked card unclaimed at the start is still unclaimed.
   */
  ghost predicate ClaimsArePaid(b0: Board, s: Session) {
    && |s.board.cards| == |b0.cards|
    && (forall i :: 0 <= i < |b0.cards| && !IsClaimed(b0.cards[i]) && IsClaimed(s.board.cards[i]) ==> i in s.paidCards)
    && (forall i :: 0 <= i < |b0.cards| && b0.cards[i].cardType == Locked && !IsClaimed(b0.cards[i]) ==>
          !IsClaimed(s.board.cards[i]))
  }

  /**
   * claimReward marks every card with the clicked card's day; when days are distinct that
   * is the clicked card alone, so a step claims nothing it does not pay for.
   */
  lemma StepKeepsClaimsPaid(b0: Board, w0: CurrencyState, s: Session, a: SessionAction)
    requires DistinctDays(b0) && SessionInvariant(b0, w0, s) && ClaimsArePaid(b0, s)
    requires ActionFits(a, |s.board.cards|)
    ensures ClaimsArePaid(b0, Step(s, a))
  {
    var r := Step(s, a);
    match a
    case Click(i, displayed) =>
      ClickClaimSpec(s.board, s.wallet, i, displayed);
      if s.board.cards[i].cardType != Locked && !IsClaimed(s.board.cards[i]) {
        assert r.paidCards == s.paidCards + [i];
        forall j | 0 <= j < |b0.cards| && !IsClaimed(s.board.cards[j]) && IsClaimed(r.board.cards[j])
          ensures j == i
        {
          assert b0.cards[j].day == b0.cards[i].day;
        }
      }
    case Reroll(picks) =>
  }

  lemma {:induction false} RunKeepsClaimsPaid(b0: Board, w0: CurrencyState, s: Session, actions: seq<SessionAction>)
    requires DistinctDays(b0) && SessionInvariant(b0, w0, s) && ClaimsArePaid(b0, s)
    requires SessionFits(actions, |s.board.cards|)
    ensures ClaimsArePaid(b0, RunSession(s, actions))
    decreases |actions|
  {
    if actions != [] {
      StepKeepsInvariant(b0, w0, s, actions[0]);
      StepKeepsClaimsPaid(b0, w0, s, actions[0]);
      RunKeepsClaimsPaid(b0, w0, Step(s, actions[0]), actions[1..]);
    }
  }

  /**
   * On a board whose days are distinct (the seed board is one), every card the session
   * claimed was paid for, and a Locked card unclaimed at the start is never claimed.
   */
  lemma ClaimedCardsWerePaid(b: Board, w: CurrencyState, actions: seq<SessionAction>)
    requires DistinctDays(b) && SessionFits(actions, |b.cards|)
    ensures var s := RunSession(Session(b, w, [], []), actions);
      && (forall i :: 0 <= i < |b.cards| && !IsClaimed(b.cards[i]) && IsClaimed(s.board.cards[i]) ==> i in s.paidCards)
      && (forall i :: 0 <= i < |b.cards| && b.cards[i].cardType == Locked && !IsClaimed(b.cards[i]) ==>
            !IsClaimed(s.board.cards[i]))
  {
    RunKeepsClaimsPaid(b, w, Session(b, w, [], []), actions);
  }

  /**
   * Without distinct days the converse fails: two cards share day 1, the click on the
   * first pays 100 coins and claims both, and the click on the second pays nothing.
   */
  lemma SharedDayClaimsUnpaidCard()
    ensures var b := Board(0, [CardData(1, Free, Coins, 100, None), CardData(1, Free, Gems, 50, None)], MaxRerolls);
            var s := RunSession(Session(b, CurrencyState(0, 0), [], []),
                                [Click(0, RewardConfig(Coins, 100)), Click(1, RewardConfig(Gems, 50))]);
            IsClaimed(s.board.cards[1]) && s.paidCards == [0] && s.wallet == CurrencyState(100, 0)
  {
    var b := Board(0, [CardData(1, Free, Coins, 100, None), CardData(1, Free, Gems, 50, None)], MaxRerolls);
    var s0 := Session(b, CurrencyState(0, 0), [], []);
    var actions := [Click(0, RewardConfig(Coins, 100)), Click(1, RewardConfig(Gems, 50))];
    ClickClaimSpec(b, s0.wallet, 0, RewardConfig(Coins, 100));
    var s1 := Step(s0, actions[0]);
    assert s1.paidCards == [0] && s1.wallet == CurrencyState(100, 0);
    assert IsClaimed(s1.board.cards[1]);
    ClickClaimSpec(s1.board, s1.wallet, 1, RewardConfig(Gems, 50));
    assert actions[1..][1..] == [];
  }

  /** Claiming day 1 twice from the seed board with App's balances pays 100 coins once. */
  lemma ClaimDayOneTwice()
    ensures var o1 := ClickClaim(InitialBoard(), CurrencyState(AppInitialCoins, AppInitialGems), 0, RewardOf(InitialCards[0]));
            var o2 := ClickClaim(o1.board, o1.wallet, 0, RewardOf(InitialCards[0]));
            o1.credits == [CoinsCredit(100)] && o2.wallet == CurrencyState(600, 50) && IsClaimed(o2.board.cards[0])
  {
    var w := CurrencyState(AppInitialCoins, AppInitialGems);
    ClickClaimSpec(InitialBoard(), w, 0, RewardOf(InitialCards[0]));
    var o1 := ClickClaim(InitialBoard(), w, 0, RewardOf(InitialCards[0]));
    SecondClickCreditsNothing(InitialBoard(), w, 0, RewardOf(InitialCards[0]), RewardOf(InitialCards[0]));
  }

  /** The Locked day-4 seed card cannot be claimed by clicking: nothing is rendered to click. */
  lemma LockedSeedCardCannotBeClaimed(w: CurrencyState, displayed: RewardConfig)
    ensures ClickClaim(InitialBoard(), w, 3, displayed) == ClickOutcome(InitialBoard(), w, [])
  {
    ClickClaimSpec(InitialBoard(), w, 3, displayed);
  }

  /**
   * The credit follows the displayed pair: clicked during a flip's fade-out, a card whose
   * board reward is already 200 XP still pays the 100 coins it is showing.
   */
  lemma ClickDuringFadeOutPaysDisplayedReward(w: CurrencyState)
    ensures var b := ApplyReroll(InitialBoard(), [3, 3, 3, 3]);
            RewardOf(b.cards[0]) == RewardConfig(XP, 200)
            && ClickClaim(b, w, 0, RewardConfig(Coins, 100)).credits == [CoinsCredit(100)]
  {
    assert ValidPicks([3, 3, 3, 3], |InitialCards|);
    var b := ApplyReroll(InitialBoard(), [3, 3, 3, 3]);
    ClickClaimSpec(b, w, 0, RewardConfig(Coins, 100));
  }
}
