/**
 * The claim button (src/features/dailyRewards/components/ClaimButton.tsx). Its click
 * handler credits the shared wallet and then runs the optional callbacks; the callbacks
 * are returned as a trace of effects, in the order the handler performs them.
 */
module ClaimButton {
  import opened Wrappers
  import opened Text
  import opened RewardTypes
  import opened Currency

  /** The props handleClick and the label read; `children` is the button's text, if any. */
  datatype ClaimButtonProps = ClaimButtonProps(
    rewardType: RewardType,
    amount: int,
    disabled: bool,
    hasOnClaim: bool,
    hasOnClick: bool,
    children: Option<string>)

  /** What one click does, in order: a wallet credit, a call of onClaim, a call of onClick. */
  datatype ClickEffect = Credited(credit: Credit) | OnClaimCalled | OnClickCalled

  /** The counter a reward goes to: everything but gems is paid in coins. */
  function CreditFor(rewardType: RewardType, amount: int): (c: Credit)
    ensures c.amount == amount
    ensures c.GemsCredit? <==> rewardType == Gems
    ensures c.CoinsCredit? <==> rewardType in {Coins, Tokens, XP}
  {
    match rewardType
    case Gems => GemsCredit(amount)
    case _ => CoinsCredit(amount)
  }

  /** The effects of a click on a button with these props. */
  function ClickEffects(p: ClaimButtonProps): (e: seq<ClickEffect>)
    ensures e == [] <==> p.disabled
    ensures !p.disabled ==> e[0] == Credited(CreditFor(p.rewardType, p.amount))
    ensures |e| <= 3
  {
    if p.disabled then []
    else [Credited(CreditFor(p.rewardType, p.amount))]
         + (if p.hasOnClaim then [OnClaimCalled] else [])
         + (if p.hasOnClick then [OnClickCalled] else [])
  }

  function CreditsOf(effects: seq<ClickEffect>): seq<Credit> {
    if effects == [] then []
    else (if effects[0].Credited? then [effects[0].credit] else []) + CreditsOf(effects[1..])
  }

  lemma {:induction false} CreditsOfNoCredits(effects: seq<ClickEffect>)
    requires forall i :: 0 <= i < |effects| ==> !effects[i].Credited?
    ensures CreditsOf(effects) == []
    decreases |effects|
  {
    if effects != [] {
      CreditsOfNoCredits(effects[1..]);
    }
  }

  /** Position of an effect kind in handleClick's sequence. */
  function Rank(e: ClickEffect): nat {
    match e
    case Credited(_) => 0
    case OnClaimCalled => 1
    case OnClickCalled => 2
  }

  /**
   * A disabled click does nothing at all; an enabled click credits exactly once,
   * to the counter CreditFor names, and calls each present callback once,
   * credit first, then onClaim, then onClick.
   */
  lemma ClickEffectsSpec(p: ClaimButtonProps)
    ensures p.disabled ==> ClickEffects(p) == []
    ensures CreditsOf(ClickEffects(p)) == if p.disabled then [] else [CreditFor(p.rewardType, p.amount)]
    ensures OnClaimCalled in ClickEffects(p) <==> !p.disabled && p.hasOnClaim
    ensures OnClickCalled in ClickEffects(p) <==> !p.disabled && p.hasOnClick
    ensures forall i, j :: 0 <= i < j < |ClickEffects(p)| ==> Rank(ClickEffects(p)[i]) < Rank(ClickEffects(p)[j])
  {
    if !p.disabled {
      var claim: seq<ClickEffect> := if p.hasOnClaim then [OnClaimCalled] else [];
      var click: seq<ClickEffect> := if p.hasOnClick then [OnClickCalled] else [];
      assert ClickEffects(p) == [Credited(CreditFor(p.rewardType, p.amount))] + (claim + click);
      EnabledEffects(Credited(CreditFor(p.rewardType, p.amount)), claim, click);
    }
  }

  /**
   * A credit, then at most one onClaim call, then at most one onClick call: one credit,
   * each call present exactly when its part is, and the effects in rank order.
   */
  lemma EnabledEffects(credit: ClickEffect, claim: seq<ClickEffect>, click: seq<ClickEffect>)
    requires credit.Credited? && (claim == [] || claim == [OnClaimCalled]) && (click == [] || click == [OnClickCalled])
    ensures var e := [credit] + (claim + click);
            && CreditsOf(e) == [credit.credit]
            && (OnClaimCalled in e <==> claim != [])
            && (OnClickCalled in e <==> click != [])
            && forall i, j :: 0 <= i < j < |e| ==> Rank(e[i]) < Rank(e[j])
  {
    var e := [credit] + (claim + click);
    CreditsOfNoCredits(claim + click);
    assert e[1..] == claim + click;
    assert OnClaimCalled in e <==> OnClaimCalled in claim + click;
    assert OnClickCalled in e <==> OnClickCalled in claim + click;
    forall i, j | 0 <= i < j < |e|
      ensures Rank(e[i]) < Rank(e[j])
    {
      if i == 0 {
        assert e[j] in claim + click;
      } else {
        assert claim != [] && e[i] == OnClaimCalled && e[j] == OnClickCalled;
      }
    }
  }

  /** handleClick: with `wallet` the provider that useCurrency returned. */
  method HandleClick(wallet: CurrencyProvider, p: ClaimButtonProps) returns (effects: seq<ClickEffect>)
    modifies wallet
    ensures effects == ClickEffects(p)
    ensures wallet.currency == ApplyCredits(old(wallet.currency), CreditsOf(effects))
  {
    effects := [];
    if p.disabled {
      return;
    }
    if p.rewardType == Coins || p.rewardType == Tokens || p.rewardType == XP {
      wallet.AddCoins(p.amount);
      effects := [Credited(CoinsCredit(p.amount))];
    } else if p.rewardType == Gems {
      wallet.AddGems(p.amount);
      effects := [Credited(GemsCredit(p.amount))];
    }
    ghost var credited := effects;
    if p.hasOnClaim {
      effects := effects + [OnClaimCalled];
    }
    if p.hasOnClick {
      effects := effects + [OnClickCalled];
    }
    ClickEffectsSpec(p);
    assert ApplyCredits(ApplyCredit(old(wallet.currency), credited[0].credit), []) == wallet.currency;
  }

  /** The button text: `children || 'CLAIM'`, so an empty string also falls back. */
  function Label(p: ClaimButtonProps): (text: string)
    ensures |text| > 0
    ensures p.children.Some? && p.children.value != "" ==> text == p.children.value
  {
    if p.children.None? || p.children.value == "" then "CLAIM" else p.children.value
  }

  /** The aria-label `Claim {amount} {rewardType}`. */
  function AriaLabel(p: ClaimButtonProps): string {
    "Claim " + (IntToDecimal(p.amount) + (" " + RewardTypeValue(p.rewardType)))
  }

  /** The aria-label names amount and reward kind unambiguously. */
  lemma AriaLabelDetermines(p: ClaimButtonProps, q: ClaimButtonProps)
    requires AriaLabel(p) == AriaLabel(q)
    ensures p.amount == q.amount && p.rewardType == q.rewardType
  {
    var a, b := IntToDecimal(p.amount), IntToDecimal(q.amount);
    DropPrefix("Claim ", a + (" " + RewardTypeValue(p.rewardType)), b + (" " + RewardTypeValue(q.rewardType)));
    SplitAtSpace(a, RewardTypeValue(p.rewardType), b, RewardTypeValue(q.rewardType));
    IntToDecimalInjective(p.amount, q.amount);
    RewardTypeValueInjective(p.rewardType, q.rewardType);
  }
}
