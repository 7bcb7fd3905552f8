# Daily rewards widget — a verified model

This project models the logic of the daily-rewards screen of a small React demo:

- a row of reward cards that the player can reroll a limited number of times and claim;
- a shared coin/gem wallet that a claim credits;
- the per-card animation triggers;
- two button-state hooks;
- the integer and string helpers of the animated background.

The code's state machines become Dafny classes with `modifies` clauses. The board,
wallet and button-hook methods are proved equal to pure transition functions, and the
lemmas are stated about those functions. The card view's and the service's methods state
their new state directly.

Modules, one per source file (plus two shared helpers):

| file | models |
|---|---|
| `reward_types.dfy` | `src/features/dailyRewards/types.ts`: card, reward and icon kinds, the icon table, the card record |
| `rewards_service.dfy` | `src/features/dailyRewards/service/dailyRewardsService.ts`: seed tables, reroll, singleton |
| `screen_model.dfy` | `src/features/dailyRewards/model/useDailyRewardsScreenModel.ts`: the board state and its actions |
| `currency.dfy` | `src/context/CurrencyContext.tsx`: the wallet and `useCurrency` |
| `claim_button.dfy` | `src/features/dailyRewards/components/ClaimButton.tsx`: click routing, labels |
| `reward_card.dfy` | `src/features/dailyRewards/components/DailyRewardCard.tsx`: render gate, labels, claim bounce, reroll flip |
| `claim_flow.dfy` | the claim path across card, button, wallet and board, as the screen wires it |
| `button_interaction.dfy` | `src/hooks/useButtonInteraction.ts` |
| `button_press_animation.dfy` | `src/hooks/useButtonPressAnimation.ts` |
| `dynamic_background.dfy` | `src/features/dailyRewards/components/DynamicBackground.tsx`: `hexToRgb`, hex formatting, palette index, side choice, corner walk, shape count |
| `text.dfy`, `wrappers.dfy` | decimal and hexadecimal number-to-string conversion, hex digit values, `padStart`; `Option`/`Result` |

`Math.random` does not appear in the model. Each random draw is an explicit index
argument, constrained to the range the source's `Math.floor(Math.random() * n)` produces:
- `picks` for the reroll;
- `draws` for the side choice of a background shape.

Callbacks passed to a button are modelled as a returned trace of effects, in the order
the handler performs them. The composite operation in `claim_flow.dfy` interprets that
trace.

## Model

| member | source | states |
|---|---|---|
| RewardTypes.ParseCardType | src/features/dailyRewards/types.ts:8-12 | a string decodes to a card type only if it is exactly that type's string value |
| RewardTypes.ParseRewardType | src/features/dailyRewards/types.ts:17-22 | a string decodes to a reward type only if it is exactly that type's string value |
| RewardTypes.CardTypeRoundTrip | src/features/dailyRewards/types.ts:8-12 | every card type's string value decodes back to that type |
| RewardTypes.RewardTypeRoundTrip | src/features/dailyRewards/types.ts:17-22 | every reward type's string value decodes back to that type |
| RewardTypes.CardTypeValueInjective | src/features/dailyRewards/types.ts:8-12 | distinct card types have distinct string values |
| RewardTypes.RewardTypeValueInjective | src/features/dailyRewards/types.ts:17-22 | distinct reward types have distinct string values |
| RewardTypes.IconForReward | src/features/dailyRewards/types.ts:37-49 | the icon lookup is total and never the lock; star exactly for coins and XP, gem exactly for gems, crown exactly for tokens |
| RewardTypes.IconForRewardNotInjective | src/features/dailyRewards/types.ts:38-41 | two different reward kinds share an icon |
| RewardTypes.AbsentClaimedReadsAsFalse | src/features/dailyRewards/types.ts:59 | a card without the optional `claimed` flag reads as unclaimed, like one with `false` |
| RewardsService.RerollCard | src/features/dailyRewards/service/dailyRewardsService.ts:69-82 | day, type and claimed flag are kept; a claimed card comes back unchanged; an unclaimed one takes the drawn pool entry |
| RewardsService.GenerateRandomRewards | src/features/dailyRewards/service/dailyRewardsService.ts:68-83 | same length and order; claimed cards unchanged; every other card keeps day, type and flag and holds the pool entry drawn for its position |
| RewardsService.RerolledRewardComesFromPool | src/features/dailyRewards/service/dailyRewardsService.ts:74-81 | after a reroll an unclaimed card holds one of the four pool entries |
| RewardsService.LockedUnclaimedCardIsRerolled | src/features/dailyRewards/service/dailyRewardsService.ts:71 | only `claimed` is tested: the locked day-4 seed card is rerolled too |
| RewardsService.InitialCardsShape | src/features/dailyRewards/service/dailyRewardsService.ts:30-35 | four seed cards, days 1 to 4 strictly ascending, days 1-3 Free and day 4 Locked, none claimed |
| RewardsService.CurrentDayIsOneFreeSeedCard | src/features/dailyRewards/service/dailyRewardsService.ts:97-101 | the hard-coded current day (3) names exactly one seed card, a Free one |
| RewardsService.DailyRewardsService.constructor | src/features/dailyRewards/service/dailyRewardsService.ts:23-35 | the service holds the pool and seed tables in fresh arrays |
| RewardsService.DailyRewardsService.GetInitialCards | src/features/dailyRewards/service/dailyRewardsService.ts:51-54 | returns a fresh array holding the seed cards |
| RewardsService.DailyRewardsService.GetPossibleRewards | src/features/dailyRewards/service/dailyRewardsService.ts:59-61 | returns a fresh array holding the reward pool |
| RewardsService.OverwriteCopies | src/features/dailyRewards/service/dailyRewardsService.ts:51-61 | overwriting the returned copies leaves the service's tables as they were |
| RewardsService.ServiceRegistry.constructor | src/features/dailyRewards/service/dailyRewardsService.ts:20 | the singleton slot starts empty |
| RewardsService.ServiceRegistry.GetInstance | src/features/dailyRewards/service/dailyRewardsService.ts:41-46 | creates the service on first use, afterwards returns the stored object |
| RewardsService.GetInstanceTwice | src/features/dailyRewards/service/dailyRewardsService.ts:41-46 | two calls return the same object |
| ScreenModel.ClaimInCards | src/features/dailyRewards/model/useDailyRewardsScreenModel.ts:43-49 | same length; rewards, days and types unchanged; a card is claimed afterwards iff it was claimed or has the day; cards of other days unchanged |
| ScreenModel.ApplyReroll | src/features/dailyRewards/model/useDailyRewardsScreenModel.ts:28-39 | the limit and the card count are kept; the counter rises by at most one, and a counter within [0, maxRerolls] stays within it |
| ScreenModel.ApplyClaim | src/features/dailyRewards/model/useDailyRewardsScreenModel.ts:42-50 | claimReward changes neither the counter nor the limit nor the number of cards |
| ScreenModel.RemainingRerolls | src/features/dailyRewards/model/useDailyRewardsScreenModel.ts:53-54 | remaining rerolls are positive exactly when canReroll holds, and lie in [0, maxRerolls] |
| ScreenModel.CanReroll | src/features/dailyRewards/model/useDailyRewardsScreenModel.ts:53 | another reroll is allowed exactly while the counter is below the limit; RerollControlMatchesGuard ties it to what reroll does |
| ScreenModel.IsCurrentDay | src/features/dailyRewards/DailyRewardsScreen.tsx:41 | a card is today's exactly when its day is the service's current day; CurrentDayHighlightsThirdSeedCard gives the seed board's case |
| ScreenModel.RerollButtonDisabled | src/features/dailyRewards/DailyRewardsScreen.tsx:62 | the reroll control is disabled exactly when canReroll is false |
| ScreenModel.RerollControlMatchesGuard | src/features/dailyRewards/DailyRewardsScreen.tsx:60-63 | the control is disabled exactly when a reroll would change nothing, and enabled exactly when a reroll would raise the counter by one |
| ScreenModel.CurrentDayHighlightsThirdSeedCard | src/features/dailyRewards/DailyRewardsScreen.tsx:41 | on the seed board exactly the third card, day 3, is marked as the current day |
| ScreenModel.RunKeepsCounterInRange | src/features/dailyRewards/model/useDailyRewardsScreenModel.ts:16-39 | across any sequence of rerolls and claims the counter never decreases and stays within [0, maxRerolls] |
| ScreenModel.RunKeepsClaimedCard | src/features/dailyRewards/model/useDailyRewardsScreenModel.ts:36-49 | a claimed card is never changed again by later rerolls or claims |
| ScreenModel.RunKeepsDaysAndTypes | src/features/dailyRewards/model/useDailyRewardsScreenModel.ts:36-49 | no action changes a card's day or type |
| ScreenModel.ClaimIdempotent | src/features/dailyRewards/model/useDailyRewardsScreenModel.ts:42-50 | claiming a day twice leaves the board as claiming it once |
| ScreenModel.ClaimUnknownDayIsNoOp | src/features/dailyRewards/model/useDailyRewardsScreenModel.ts:43-49 | claiming a day that no card has changes nothing |
| ScreenModel.RerollWhenExhaustedIsNoOp | src/features/dailyRewards/model/useDailyRewardsScreenModel.ts:30 | at the limit, reroll changes neither the counter nor the cards |
| ScreenModel.ThreeRerollsExhaustTheLimit | src/features/dailyRewards/model/useDailyRewardsScreenModel.ts:22-39 | from a fresh board three rerolls reach the limit of 3 and a fourth changes nothing |
| ScreenModel.DailyRewardsScreenModel.constructor | src/features/dailyRewards/model/useDailyRewardsScreenModel.ts:16-25 | the board starts with counter 0, the service's seed cards and the limit 3 |
| ScreenModel.DailyRewardsScreenModel.Reroll | src/features/dailyRewards/model/useDailyRewardsScreenModel.ts:28-39 | at the limit nothing changes; otherwise the counter rises by exactly one and the cards become the rerolled cards |
| ScreenModel.DailyRewardsScreenModel.ClaimReward | src/features/dailyRewards/model/useDailyRewardsScreenModel.ts:42-50 | the counter is unchanged and the cards become the cards with that day claimed |
| Currency.InitialCurrency | src/context/CurrencyContext.tsx:16-24 | each balance starts at the given value, or at 0 when none is given |
| Currency.ApplyCredit | src/context/CurrencyContext.tsx:26-38 | a coin credit raises coins by exactly its amount and keeps gems; a gem credit the other way round |
| Currency.ApplyCreditsTotals | src/context/CurrencyContext.tsx:26-38 | without clamping, each balance ends at its start plus the sum of the amounts sent to it |
| Currency.ApplyCredits | src/context/CurrencyContext.tsx:26-38 | credits applied in order, one addCoins or addGems call each; ApplyCreditsTotals gives the final balances as the start plus the per-counter sums, and CreditOrderIrrelevant shows the order does not matter |
| Currency.CreditOrderIrrelevant | src/context/CurrencyContext.tsx:26-38 | the final balances do not depend on the order of the credits |
| Currency.CurrencyProvider.constructor | src/context/CurrencyContext.tsx:16-24 | the provider's state starts at the initial balances |
| Currency.CurrencyProvider.AddCoins | src/context/CurrencyContext.tsx:26-31 | coins rise by exactly the amount and gems are unchanged |
| Currency.CurrencyProvider.AddGems | src/context/CurrencyContext.tsx:33-38 | gems rise by exactly the amount and coins are unchanged |
| Currency.UseCurrency | src/context/CurrencyContext.tsx:53-59 | succeeds exactly when a provider is present, returning it; otherwise fails with the provider error message |
| ClaimButton.CreditFor | src/features/dailyRewards/components/ClaimButton.tsx:27-31 | the credit has the button's amount, goes to gems exactly for Gems and to coins exactly for Coins, Tokens and XP |
| ClaimButton.ClickEffectsSpec | src/features/dailyRewards/components/ClaimButton.tsx:22-42 | a disabled click has no effect; an enabled click credits exactly once and calls each callback that was passed; the order is credit, then onClaim, then onClick |
| ClaimButton.ClickEffects | src/features/dailyRewards/components/ClaimButton.tsx:22-42 | a click has no effect exactly when the button is disabled; otherwise the first effect is the credit of the button's reward, and there are at most three |
| ClaimButton.HandleClick | src/features/dailyRewards/components/ClaimButton.tsx:22-42 | the handler performs exactly those effects, and the wallet ends at the old balances plus its credits |
| ClaimButton.Label | src/features/dailyRewards/components/ClaimButton.tsx:44 | the text is never empty, and it is the children when they are a non-empty string |
| ClaimButton.AriaLabelDetermines | src/features/dailyRewards/components/ClaimButton.tsx:44 | equal aria-labels mean equal amount and reward kind |
| ClaimButton.AriaLabel | src/features/dailyRewards/components/ClaimButton.tsx:44 | "Claim", the amount and the reward kind; AriaLabelDetermines shows the two can be read back |
| RewardCard.RenderIcon | src/features/dailyRewards/components/DailyRewardCard.tsx:157-171 | the lock icon appears exactly for a locked card; otherwise the icon is that of the props' reward kind |
| RewardCard.RenderButtonContent | src/features/dailyRewards/components/DailyRewardCard.tsx:173-195 | a locked card gets no button; otherwise the button shows the displayed reward; it is disabled and without onClaim iff claimed; an unclaimed card's onClaim forwards the card's own day |
| RewardCard.ButtonShowsCardLabel | src/features/dailyRewards/components/DailyRewardCard.tsx:134-195 | an unlocked card's button reads CLAIMED when claimed and the media-dependent claim label otherwise |
| RewardCard.DisplayDay | src/features/dailyRewards/components/DailyRewardCard.tsx:135 | "DAY " and the day in decimal; DisplayDayInjective shows different days display differently |
| RewardCard.DisplayDayInjective | src/features/dailyRewards/components/DailyRewardCard.tsx:135 | equal day captions mean equal days |
| RewardCard.ClaimLabel | src/features/dailyRewards/components/DailyRewardCard.tsx:134 | the claim label is never empty and never the CLAIMED stamp |
| RewardCard.StatusSuffixDistinguishes | src/features/dailyRewards/components/DailyRewardCard.tsx:273 | the status suffix tells locked, claimed and neither apart; locked takes precedence |
| RewardCard.CardAriaLabelDetermines | src/features/dailyRewards/components/DailyRewardCard.tsx:273 | equal card aria-labels mean equal day, amount, reward kind and locked status, and, for unlocked cards, equal claimed status |
| RewardCard.CardAriaLabel | src/features/dailyRewards/components/DailyRewardCard.tsx:273 | day, amount, reward kind and status suffix of the props; CardAriaLabelDetermines shows each can be read back |
| RewardCard.BounceAtMostOnce | src/features/dailyRewards/components/DailyRewardCard.tsx:46-58 | while the claimed flag only goes from false to true, the bounce starts once if the card becomes claimed and never while it stays claimed |
| RewardCard.DailyRewardCardView.constructor | src/features/dailyRewards/components/DailyRewardCard.tsx:131-144 | on mount the refs and displayedReward equal the props and no flip is running |
| RewardCard.DailyRewardCardView.ClaimEffect | src/features/dailyRewards/components/DailyRewardCard.tsx:46-58 | the bounce starts iff the card is claimed now and was not before; the ref then records the current flag |
| RewardCard.DailyRewardCardView.RerollEffect | src/features/dailyRewards/components/DailyRewardCard.tsx:95-113 | a flip starts iff amount or kind differs from the recorded pair; both refs are updated; the displayed reward is unchanged |
| RewardCard.DailyRewardCardView.AfterRender | src/features/dailyRewards/components/DailyRewardCard.tsx:139-144 | both effects in order: bounce on a rising claim edge, flip on a reward change, displayed reward unchanged |
| RewardCard.DailyRewardCardView.FadeOutFinished | src/features/dailyRewards/components/DailyRewardCard.tsx:103-105 | once the fade-out ends, the displayed reward becomes the new pair and the fade-in begins |
| RewardCard.DailyRewardCardView.FadeInFinished | src/features/dailyRewards/components/DailyRewardCard.tsx:106 | the fade-in ends with the displayed reward equal to the last recorded pair |
| ClaimFlow.CardPropsOf | src/features/dailyRewards/DailyRewardsScreen.tsx:34-43 | the card's props carry the board card's day, lock status and claim state, and always an onClaim |
| ClaimFlow.ClickClaimSpec | src/features/dailyRewards/components/DailyRewardCard.tsx:151-195 | a click on a locked or claimed card changes nothing; on any other card it credits the displayed reward exactly once and then claims the card's day on the board |
| ClaimFlow.ClickClaim | src/features/dailyRewards/components/DailyRewardCard.tsx:151-195 | a click keeps the card count and the counter, makes at most one credit, of the displayed reward, and the wallet is the old one plus that credit |
| ClaimFlow.ClickClaimOnCard | src/features/dailyRewards/components/ClaimButton.tsx:22-42 | the imperative chain (render, handleClick, addCoins or addGems, claimReward) ends in the state the composite click function gives |
| ClaimFlow.SecondClickCreditsNothing | src/features/dailyRewards/components/DailyRewardCard.tsx:178-192 | a second click on the same card credits nothing and changes nothing |
| ClaimFlow.Step | src/features/dailyRewards/DailyRewardsScreen.tsx:34-43 | one user action only appends to the credits and paid positions, one credit per paid position and at most one each; a reroll pays nothing |
| ClaimFlow.RunSession | src/features/dailyRewards/DailyRewardsScreen.tsx:34-63 | a run of actions only appends to the credits and paid positions, at most one per action |
| ClaimFlow.CreditAtMostOncePerCard | src/features/dailyRewards/components/DailyRewardCard.tsx:173-195 | over any sequence of clicks and rerolls, each card is paid at most once; a locked card or one claimed beforehand is never paid; every paid card ends claimed; the balances are the start plus exactly the credits made |
| ClaimFlow.SeedBoardHasDistinctDays | src/features/dailyRewards/service/dailyRewardsService.ts:30-35 | no two seed cards share a day |
| ClaimFlow.ClaimedCardsWerePaid | src/features/dailyRewards/model/useDailyRewardsScreenModel.ts:42-50 | on a board with distinct days, every card claimed during any session was paid for, and a locked card unclaimed at the start stays unclaimed |
| ClaimFlow.SharedDayClaimsUnpaidCard | src/features/dailyRewards/model/useDailyRewardsScreenModel.ts:43-49 | two cards sharing day 1: clicking both claims both but pays only the first, 100 coins |
| ClaimFlow.ClaimDayOneTwice | src/App.tsx:8 | from 500 coins and 50 gems, claiming day 1 twice pays 100 coins once: 600 coins, 50 gems |
| ClaimFlow.LockedSeedCardCannotBeClaimed | src/features/dailyRewards/components/DailyRewardCard.tsx:174-176 | a click on the locked day-4 seed card changes neither the board nor the wallet |
| ClaimFlow.ClickDuringFadeOutPaysDisplayedReward | src/features/dailyRewards/components/DailyRewardCard.tsx:318 | the credit uses the displayed pair: during a flip a card holding 200 XP still pays the 100 coins it shows |
| ButtonInteraction.Step | src/hooks/useButtonInteraction.ts:8-33 | a flag can be set only by its own handler while enabled, and mouse enter, focus and press change no other flag; mouse leave clears hovered and pressed and keeps focus; blur clears everything; release clears pressed only |
| ButtonInteraction.DisabledRunSetsNothing | src/hooks/useButtonInteraction.ts:8-33 | while disabled, no sequence of handler calls sets any flag |
| ButtonInteraction.DisabledButtonStaysIdle | src/hooks/useButtonInteraction.ts:4-33 | a disabled button that starts idle stays idle whatever the user does |
| ButtonInteraction.RunEndingInBlurIsIdle | src/hooks/useButtonInteraction.ts:21-25 | any sequence ending in a blur leaves all three flags false |
| ButtonInteraction.ButtonInteractionHook.constructor | src/hooks/useButtonInteraction.ts:4-6 | hovered, focused and pressed start false |
| ButtonInteraction.ButtonInteractionHook.HandleMouseEnter | src/hooks/useButtonInteraction.ts:8-10 | sets hovered only when enabled and changes nothing else |
| ButtonInteraction.ButtonInteractionHook.HandleMouseLeave | src/hooks/useButtonInteraction.ts:12-15 | clears hovered and pressed and leaves focused unchanged |
| ButtonInteraction.ButtonInteractionHook.HandleFocus | src/hooks/useButtonInteraction.ts:17-19 | sets focused only when enabled and changes nothing else |
| ButtonInteraction.ButtonInteractionHook.HandleBlur | src/hooks/useButtonInteraction.ts:21-25 | clears all three flags |
| ButtonInteraction.ButtonInteractionHook.HandlePress | src/hooks/useButtonInteraction.ts:27-29 | sets pressed only when enabled and changes nothing else |
| ButtonInteraction.ButtonInteractionHook.HandleRelease | src/hooks/useButtonInteraction.ts:31-33 | clears pressed unconditionally |
| ButtonPressAnimation.Step | src/hooks/useButtonPressAnimation.ts:20-35 | a rejected press changes nothing; an accepted one sets pressed and animating; the first timer clears pressed but keeps presses rejected; the second returns to the initial state |
| ButtonPressAnimation.PressesBalanceCompletions | src/hooks/useButtonPressAnimation.ts:22-35 | over any possible history, the accepted presses equal the completion callbacks plus the change in the count of running animations |
| ButtonPressAnimation.CompletionOncePerAcceptedPress | src/hooks/useButtonPressAnimation.ts:22-35 | from a fresh hook, at most one accepted press is still awaiting its callback; once idle, every accepted press has had exactly one |
| ButtonPressAnimation.DoublePressCompletesOnce | src/hooks/useButtonPressAnimation.ts:20-35 | a second press before the timers fire is rejected and only one callback follows |
| ButtonPressAnimation.PressAnimationHook.constructor | src/hooks/useButtonPressAnimation.ts:17-18 | pressed and animating start false |
| ButtonPressAnimation.PressAnimationHook.Interactive | src/hooks/useButtonPressAnimation.ts:20 | isInteractive holds exactly when neither disabled nor animating |
| ButtonPressAnimation.PressAnimationHook.HandlePress | src/hooks/useButtonPressAnimation.ts:22-25 | when not interactive nothing changes and no press is counted; otherwise pressed and animating become true and one accepted press is counted |
| ButtonPressAnimation.PressAnimationHook.ReleaseTimerFires | src/hooks/useButtonPressAnimation.ts:26-28 | the first continuation clears pressed while animating stays true |
| ButtonPressAnimation.PressAnimationHook.SettleTimerFires | src/hooks/useButtonPressAnimation.ts:29-31 | the second continuation clears animating, calls the callback exactly when one was given, and counts one completion |
| Text.IntToDecimalInjective | src/features/dailyRewards/components/ClaimButton.tsx:44 | different integers interpolate to different decimal strings |
| Text.NatToHex | src/features/dailyRewards/components/DynamicBackground.tsx:38 | `toString(16)` yields lower-case hex digits, one digit exactly below 16 |
| Text.PadStartZeros | src/features/dailyRewards/components/DynamicBackground.tsx:38-40 | the result has the requested length (or the original length if longer), ends with the input and is zero-filled in front |
| DynamicBackground.PairValue | src/features/dailyRewards/components/DynamicBackground.tsx:22-24 | `parseInt` of two hex digits of either case is always a channel value in 0..255 |
| DynamicBackground.HexToRgb | src/features/dailyRewards/components/DynamicBackground.tsx:18-27 | every channel lies in 0..255, and any string not matching the colour pattern reads as black |
| DynamicBackground.IsHexColor | src/features/dailyRewards/components/DynamicBackground.tsx:19 | a matching string has six or seven characters; ShortFormIsBlack and CaseAndHashDoNotMatter state what it accepts |
| DynamicBackground.ChannelRoundTrip | src/features/dailyRewards/components/DynamicBackground.tsx:38-40 | a channel in range formats as two lower-case hex digits whose value is the channel |
| DynamicBackground.FormatChannel | src/features/dailyRewards/components/DynamicBackground.tsx:38-40 | at least two characters; ChannelRoundTrip gives the digits of a channel in range |
| DynamicBackground.FormatThenParse | src/features/dailyRewards/components/DynamicBackground.tsx:36-41 | a colour in range formats as '#' and six lower-case hex digits, and hexToRgb recovers it |
| DynamicBackground.FormatRgb | src/features/dailyRewards/components/DynamicBackground.tsx:36-41 | '#' and at least six more characters; FormatThenParse and ParseThenFormat make it the inverse of hexToRgb |
| DynamicBackground.ParseThenFormat | src/features/dailyRewards/components/DynamicBackground.tsx:18-27 | a '#' with six lower-case hex digits parses to a colour that formats back to the same string |
| DynamicBackground.ShortFormIsBlack | src/features/dailyRewards/components/DynamicBackground.tsx:19-26 | the three-digit short form is not accepted and reads as black |
| DynamicBackground.CaseAndHashDoNotMatter | src/features/dailyRewards/components/DynamicBackground.tsx:19 | digits of either case are accepted, with or without the '#' |
| DynamicBackground.JsRem | src/features/dailyRewards/components/DynamicBackground.tsx:292 | JavaScript `%`: smaller in magnitude than the divisor, with the sign of the dividend, differing from the dividend by a multiple of the divisor |
| DynamicBackground.PaletteIndices | src/features/dailyRewards/components/DynamicBackground.tsx:284-293 | no palette, no index; otherwise both indices lie in range, the current one is the mathematical modulo even for negative cycle numbers, and the next is its cyclic successor |
| DynamicBackground.NextPaletteWraps | src/features/dailyRewards/components/DynamicBackground.tsx:293 | the next palette is the first one after the last, otherwise the one after the current |
| DynamicBackground.SideToCornerInjective | src/features/dailyRewards/components/DynamicBackground.tsx:132-137 | different sides start at different corners |
| DynamicBackground.SideToCorner | src/features/dailyRewards/components/DynamicBackground.tsx:132-137 | every side maps to a corner index below 4 |
| DynamicBackground.CreateShape | src/features/dailyRewards/components/DynamicBackground.tsx:202-208 | the second side always differs from the first; it comes from the first draw naming another side, and all draws skipped before it named the first side |
| DynamicBackground.CornerWalk | src/features/dailyRewards/components/DynamicBackground.tsx:138-151 | the walk visits idx2+1, idx2+2, ... cyclically and stops at idx1 after (idx1 - idx2) mod 4 steps; for distinct sides that is 1 to 3 steps, and the gradient endpoints are the first and last corners visited |
| DynamicBackground.GradientEndpoints | src/features/dailyRewards/components/DynamicBackground.tsx:148-151 | the first endpoint is a corner index below 4 and the second is side1's corner; CornerWalk makes them the first and last corners walked |
| DynamicBackground.ShapeOutline | src/features/dailyRewards/components/DynamicBackground.tsx:138-144 | a created shape's outline runs from the corner after side2's to side1's corner in one to three steps |
| DynamicBackground.DefaultPalettesAreColors | src/features/dailyRewards/components/DynamicBackground.tsx:50-53 | every default palette colour is a '#' with six lower-case hex digits |
| DynamicBackground.GenerateShapes | src/features/dailyRewards/components/DynamicBackground.tsx:187-193 | creates exactly numShapes shapes (none for zero or a negative count), each with two distinct sides |

## Behaviour as written

Some of the code's behaviour is worth noting; the model follows the code as written.

- `claimReward(day)` has no guard (`useDailyRewardsScreenModel.ts:42-50`): it marks every
  card with that day, locked, claimed or not. Only the card's render protects against
  such claims: a locked card has no button, and a claimed card's button is disabled and
  has no `onClaim`. `ScreenModel.ApplyClaim` therefore marks any matching day. The
  once-per-card guarantee is proved only of the whole click path,
  `ClaimFlow.CreditAtMostOncePerCard`. Its converse, that every claimed card was paid
  for, holds only when no two cards share a day (`ClaimFlow.ClaimedCardsWerePaid`; the
  seed board's days are distinct).
- When two cards share a day, one click claims both and pays once: the second card ends
  claimed without a credit, and a click on it then pays nothing
  (`ClaimFlow.SharedDayClaimsUnpaidCard`).
- The credit is the pair the card currently displays, not the card's recorded reward
  (`DailyRewardCard.tsx:318`). The two differ while a reroll flip is fading out;
  `ClaimFlow.ClickDuringFadeOutPaysDisplayedReward` gives an instance.
- `getCurrentDay` returns 3, although its comment speaks of day 2.
- The wallet accepts any amount, including zero or a negative one. Nothing checks that
  amounts are positive.
- A reroll also redraws the reward of a locked card that is not claimed.

## Left out

- Canvas drawing in the background is not modelled: gradients, bezier paths, blur,
  vignette, noise, offsets and waves are floating-point work on the Canvas API.
- Colour interpolation: `lerpColor`'s `Math.round` of a float blend is not modelled.
- DynamicBackground.FormatRgb: takes the already rounded channels. Only channels in
  0..255 are proved to round-trip. For other values the model formats as JavaScript
  would, but nothing is proved about them.
- Shape positions, control points and speeds are floats and are not modelled. A shape
  keeps only its two sides.
- DynamicBackground.GenerateShapes: takes an integer `numShapes`. A fractional count
  would make the source's loop run up to the next integer.
- DynamicBackground.CreateShape: requires a draw sequence that eventually names a second
  side. A run of random draws that never does so is not modelled.
- Randomness: the distribution and independence of `Math.random` are not modelled. Only
  the range of each draw is.
- Timing: `requestAnimationFrame`, `setTimeout`, the 300 ms duration and the 50 ms delay
  are replaced by explicit step methods (`ReleaseTimerFires`, `SettleTimerFires`). Each
  step is callable exactly when its timer is pending.
- The react-spring animations (tension, friction, poses) are not modelled, and neither
  are the entrance and stamp springs. The reroll flip is reduced to its two `next`
  steps. The model assumes that a new flip replaces one still running, as a new
  `api.start` does. `RewardCard.DailyRewardCardView.RerollEffect` therefore overwrites
  the pending target.
- React semantics: batched updates, the `reroll` closure over a stale `rerollCount`, and
  StrictMode double effects are not modelled. Every action runs to completion before
  the next one starts.
- `getInitialCards` copies only the array: the card objects stay shared with the
  service. Cards are values in the model, which matches the source because no card
  object is ever mutated.
- Numbers: days, amounts and balances are unbounded integers. Fractional or non-finite
  JavaScript numbers are not modelled.
- The media query (`useMediaSize`) becomes a boolean parameter of
  `RewardCard.ClaimLabel`. The click path uses the desktop label, because the label does
  not affect what a click does.
- The CLAIMED stamp that a claimed card passes as the button's children is modelled as
  the text "CLAIMED". On mobile the stamp shows only an icon; either way it is a truthy
  child, so the default label is not used.
- JSX, CSS and thin wrappers are left out: `PremiumButton.tsx`, the `RewardsRerollButton.tsx`
  key and mouse wiring, `CurrencyDisplay.tsx` (a float count-up over spring values),
  `renderRewardContent`, and the screen layout apart from `isCurrentDay` and the
  disabled reroll control (`ScreenModel.IsCurrentDay`, `ScreenModel.RerollButtonDisabled`).
- The media contexts (`useMediaQuery.ts`, `MediaContext.tsx`) are left out: they read
  `window.matchMedia`.
- Entry points and tooling are left out: `main.tsx`, `index.ts` and the build and lint
  configuration. `App.tsx` is modelled only through its initial balances of 500 coins and
  50 gems (`Currency.AppInitialCoins`, `Currency.AppInitialGems`).
