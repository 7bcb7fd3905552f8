/**
 * The shared wallet (src/context/CurrencyContext.tsx): a `{coins, gems}` record
 * replaced by addCoins and addGems, and the context lookup that fails outside a
 * provider. Amounts are not checked or clamped.
 */
module Currency {
  import opened Wrappers

  datatype CurrencyState = CurrencyState(coins: int, gems: int)

  /** The balances App.tsx passes to its provider. */
  const AppInitialCoins: int := 500
  const AppInitialGems: int := 50

  /** Provider props `initialCoins = 0`, `initialGems = 0`: an omitted balance starts at zero. */
  function InitialCurrency(initialCoins: Option<int>, initialGems: Option<int>): (c: CurrencyState)
    ensures initialCoins.None? ==> c.coins == 0
    ensures initialGems.None? ==> c.gems == 0
    ensures initialCoins.Some? ==> c.coins == initialCoins.value
    ensures initialGems.Some? ==> c.gems == initialGems.value
  {
    CurrencyState(initialCoins.GetOr(0), initialGems.GetOr(0))
  }

  /** One call of addCoins or addGems, recorded as a value. */
  datatype Credit = CoinsCredit(amount: int) | GemsCredit(amount: int)

  function ApplyCredit(c: CurrencyState, credit: Credit): (r: CurrencyState)
    ensures credit.CoinsCredit? ==> r.gems == c.gems && r.coins - c.coins == credit.amount
    ensures credit.GemsCredit? ==> r.coins == c.coins && r.gems - c.gems == credit.amount
  {
    match credit
    case CoinsCredit(a) => c.(coins := c.coins + a)
    case GemsCredit(a) => c.(gems := c.gems + a)
  }

  /** A series of credits applied in order. */
  function ApplyCredits(c: CurrencyState, credits: seq<Credit>): CurrencyState
    decreases |credits|
  {
    if credits == [] then c else ApplyCredits(ApplyCredit(c, credits[0]), credits[1..])
  }

  function CoinsOf(credit: Credit): int {
    if credit.CoinsCredit? then credit.amount else 0
  }

  function GemsOf(credit: Credit): int {
    if credit.GemsCredit? then credit.amount else 0
  }

  function CoinsTotal(credits: seq<Credit>): int {
    if credits == [] then 0 else CoinsOf(credits[0]) + CoinsTotal(credits[1..])
  }

  function GemsTotal(credits: seq<Credit>): int {
    if credits == [] then 0 else GemsOf(credits[0]) + GemsTotal(credits[1..])
  }

  /** No clamping: each balance ends at its start plus the sum of the amounts sent to it. */
  lemma {:induction false} ApplyCreditsTotals(c: CurrencyState, credits: seq<Credit>)
    ensures ApplyCredits(c, credits) == CurrencyState(c.coins + CoinsTotal(credits), c.gems + GemsTotal(credits))
    decreases |credits|
  {
    if credits != [] {
      ApplyCreditsTotals(ApplyCredit(c, credits[0]), credits[1..]);
    }
  }

  /** Applying two batches of credits one after the other is applying them joined. */
  lemma {:induction false} ApplyCreditsConcat(c: CurrencyState, a: seq<Credit>, b: seq<Credit>)
    ensures ApplyCredits(c, a + b) == ApplyCredits(ApplyCredits(c, a), b)
    decreases |a|
  {
    if a == [] {
      assert a + b == b;
    } else {
      assert (a + b)[0] == a[0];
      assert (a + b)[1..] == a[1..] + b;
      ApplyCreditsConcat(ApplyCredit(c, a[0]), a[1..], b);
    }
  }

  lemma {:induction false} TotalsOfConcat(a: seq<Credit>, b: seq<Credit>)
    ensures CoinsTotal(a + b) == CoinsTotal(a) + CoinsTotal(b)
    ensures GemsTotal(a + b) == GemsTotal(a) + GemsTotal(b)
    decreases |a|
  {
    if a == [] {
      assert a + b == b;
    } else {
      assert (a + b)[0] == a[0];
      assert (a + b)[1..] == a[1..] + b;
      TotalsOfConcat(a[1..], b);
    }
  }

  /** Taking one credit out of a list takes its amount out of the totals. */
  lemma TotalsWithout(t: seq<Credit>, j: nat)
    requires j < |t|
    ensures CoinsTotal(t) == CoinsOf(t[j]) + CoinsTotal(t[..j] + t[j + 1..])
    ensures GemsTotal(t) == GemsOf(t[j]) + GemsTotal(t[..j] + t[j + 1..])
  {
    var before, one, after := t[..j], [t[j]], t[j + 1..];
    assert t == before + (one + after);
    assert one[1..] == [];
    assert CoinsTotal(one) == CoinsOf(t[j]) && GemsTotal(one) == GemsOf(t[j]);
    TotalsOfConcat(before, one + after);
    TotalsOfConcat(one, after);
    TotalsOfConcat(before, after);
  }

  /** Taking the same element out of two lists with the same elements leaves lists with the same elements. */
  lemma MultisetWithout(s: seq<Credit>, t: seq<Credit>, j: nat)
    requires multiset(s) == multiset(t) && s != [] && j < |t| && t[j] == s[0]
    ensures multiset(s[1..]) == multiset(t[..j] + t[j + 1..])
  {
    var x := s[0];
    var before, after := t[..j], t[j + 1..];
    assert s == [x] + s[1..];
    assert t == before + ([x] + after);
    var left, right := multiset(s[1..]), multiset(before + after);
    calc {
      left + multiset{x};
      multiset(s);
      multiset(t);
      multiset(before) + (multiset{x} + multiset(after));
      right + multiset{x};
    }
    forall y ensures left[y] == right[y] {
      assert (left + multiset{x})[y] == (right + multiset{x})[y];
    }
  }

  /** The totals depend only on which credits were made, not on their order. */
  lemma {:induction false} TotalsIgnoreOrder(s: seq<Credit>, t: seq<Credit>)
    requires multiset(s) == multiset(t)
    ensures CoinsTotal(s) == CoinsTotal(t) && GemsTotal(s) == GemsTotal(t)
    decreases |s|
  {
    if s == [] {
      assert |t| == |multiset(t)| == 0;
    } else {
      assert s[0] in multiset(t);
      var j :| 0 <= j < |t| && t[j] == s[0];
      MultisetWithout(s, t, j);
      TotalsIgnoreOrder(s[1..], t[..j] + t[j + 1..]);
      TotalsWithout(t, j);
    }
  }

  /** Final balances do not depend on the order of the credits. */
  lemma CreditOrderIrrelevant(c: CurrencyState, s: seq<Credit>, t: seq<Credit>)
    requires multiset(s) == multiset(t)
    ensures ApplyCredits(c, s) == ApplyCredits(c, t)
  {
    ApplyCreditsTotals(c, s);
    ApplyCreditsTotals(c, t);
    TotalsIgnoreOrder(s, t);
  }

  /** CurrencyProvider: the `currency` state cell and its two updaters. */
  class CurrencyProvider {
    var currency: CurrencyState

    constructor (initialCoins: Option<int>, initialGems: Option<int>)
      ensures currency == InitialCurrency(initialCoins, initialGems)
    {
      currency := InitialCurrency(initialCoins, initialGems);
    }

    /** addCoins: coins go up by exactly `amount`, gems stay. */
    method AddCoins(amount: int)
      modifies this
      ensures currency == CurrencyState(old(currency).coins + amount, old(currency).gems)
      ensures currency == ApplyCredit(old(currency), CoinsCredit(amount))
    {
      currency := currency.(coins := currency.coins + amount);
    }

    /** addGems: gems go up by exactly `amount`, coins stay. */
    method AddGems(amount: int)
      modifies this
      ensures currency == CurrencyState(old(currency).coins, old(currency).gems + amount)
      ensures currency == ApplyCredit(old(currency), GemsCredit(amount))
    {
      currency := currency.(gems := currency.gems + amount);
    }
  }

  const OutsideProviderMessage: string := "useCurrency must be used within a CurrencyProvider"

  /** useCurrency: the nearest provider, or the thrown error when there is none. */
  function UseCurrency(context: Option<CurrencyProvider>): (r: Result<CurrencyProvider, string>)
    ensures r.Success? <==> context.Some?
    ensures r.Success? ==> r.value == context.value
    ensures r.Failure? ==> r.error == OutsideProviderMessage
  {
    match context
    case None => Failure(OutsideProviderMessage)
    case Some(provider) => Success(provider)
  }
}
