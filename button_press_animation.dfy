/**
 * useButtonPressAnimation: an accepted press sets `pressed` and `animating`; after the
 * animation duration a first timer clears `pressed`; 50 ms later a second timer clears
 * `animating` and calls `onAnimationComplete`. A press is accepted only while the button
 * is interactive, i.e. not disabled and not animating. The timers become explicit steps;
 * each is deliverable exactly when the press that scheduled it is still pending.
 */
module ButtonPressAnimation {

  datatype PressState = PressState(pressed: bool, animating: bool)

  /** A press with the hook's current `disabled`, or one of the two timer continuations firing. */
  datatype PressEvent = Press(disabled: bool) | ReleaseTimer | SettleTimer

  function Initial(): PressState {
    PressState(false, false)
  }

  predicate IsInteractive(s: PressState, disabled: bool) {
    !disabled && !s.animating
  }

  /** A state the hook can reach: pressed only while animating. */
  predicate Reachable(s: PressState) {
    s.pressed ==> s.animating
  }

  /**
   * Which events can happen in state s: a press at any time; the first timer while it is
   * pending (pressed); the second timer once the first has fired (animating, not pressed).
   */
  predicate CanHappen(s: PressState, e: PressEvent) {
    match e
    case Press(_) => true
    case ReleaseTimer => s.pressed
    case SettleTimer => s.animating && !s.pressed
  }

  predicate Accepts(s: PressState, e: PressEvent) {
    e.Press? && IsInteractive(s, e.disabled)
  }

  /**
   * One event. A rejected press changes nothing; an accepted one sets both flags; the first
   * timer clears pressed but keeps animating, so presses are still rejected; the second
   * clears animating, which makes the button interactive again unless it is disabled.
   */
  function Step(s: PressState, e: PressEvent): (r: PressState)
    requires Reachable(s) && CanHappen(s, e)
    ensures Reachable(r)
    ensures e.Press? && !Accepts(s, e) ==> r == s
    ensures Accepts(s, e) ==> r.pressed && r.animating && !IsInteractive(r, e.disabled)
    ensures e == ReleaseTimer ==> !r.pressed && r.animating && forall d :: !IsInteractive(r, d)
    ensures e == SettleTimer ==> r == Initial() && forall d :: IsInteractive(r, d) == !d
  {
    match e
    case Press(disabled) => if IsInteractive(s, disabled) then PressState(true, true) else s
    case ReleaseTimer => s.(pressed := false)
    case SettleTimer => s.(animating := false)
  }

  /** A possible history: every event can happen in the state the previous ones left. */
  predicate Possible(s: PressState, events: seq<PressEvent>)
    requires Reachable(s)
    decreases |events|
  {
    events == [] || (CanHappen(s, events[0]) && Possible(Step(s, events[0]), events[1..]))
  }

  function Run(s: PressState, events: seq<PressEvent>): PressState
    requires Reachable(s) && Possible(s, events)
    decreases |events|
  {
    if events == [] then s else Run(Step(s, events[0]), events[1..])
  }

  function AcceptedCount(s: PressState, events: seq<PressEvent>): nat
    requires Reachable(s) && Possible(s, events)
    decreases |events|
  {
    if events == [] then 0
    else (if Accepts(s, events[0]) then 1 else 0) + AcceptedCount(Step(s, events[0]), events[1..])
  }

  function CompletionCount(s: PressState, events: seq<PressEvent>): nat
    requires Reachable(s) && Possible(s, events)
    decreases |events|
  {
    if events == [] then 0
    else (if events[0] == SettleTimer then 1 else 0) + CompletionCount(Step(s, events[0]), events[1..])
  }

  function AnimatingCount(s: PressState): nat {
    if s.animating then 1 else 0
  }

  /**
   * Over any possible history, accepted presses and completion callbacks balance: each
   * accepted press gets its callback, apart from one still animating at the end.
   */
  lemma {:induction false} PressesBalanceCompletions(s: PressState, events: seq<PressEvent>)
    requires Reachable(s) && Possible(s, events)
    ensures AnimatingCount(s) + AcceptedCount(s, events)
         == CompletionCount(s, events) + AnimatingCount(Run(s, events))
    decreases |events|
  {
    if events != [] {
      PressesBalanceCompletions(Step(s, events[0]), events[1..]);
    }
  }

  /** From a fresh hook: at most one press is in flight, and once idle every accepted press has completed. */
  lemma CompletionOncePerAcceptedPress(events: seq<PressEvent>)
    requires Possible(Initial(), events)
    ensures CompletionCount(Initial(), events) <= AcceptedCount(Initial(), events) <= CompletionCount(Initial(), events) + 1
    ensures !Run(Initial(), events).animating ==> AcceptedCount(Initial(), events) == CompletionCount(Initial(), events)
  {
    PressesBalanceCompletions(Initial(), events);
  }

  /** Pressing twice before the timers fire: the second press is rejected, one callback follows. */
  lemma DoublePressCompletesOnce()
    ensures var events := [Press(false), Press(false), ReleaseTimer, SettleTimer];
            Possible(Initial(), events) && AcceptedCount(Initial(), events) == 1
            && CompletionCount(Initial(), events) == 1 && Run(Initial(), events) == Initial()
  {
    var events := [Press(false), Press(false), ReleaseTimer, SettleTimer];
    assert events[1..] == [Press(false), ReleaseTimer, SettleTimer];
    assert events[1..][1..] == [ReleaseTimer, SettleTimer];
    assert events[1..][1..][1..] == [SettleTimer];
  }

  /** The hook instance, with ghost tallies of accepted presses and fired callbacks. */
  class PressAnimationHook {
    var pressed: bool
    var animating: bool
    ghost var acceptedPresses: nat
    ghost var completions: nat

    function State(): PressState
      reads this
    {
      PressState(pressed, animating)
    }

    ghost predicate Valid()
      reads this
    {
      Reachable(State()) && acceptedPresses == completions + AnimatingCount(State())
    }

    constructor ()
      ensures Valid() && State() == Initial() && acceptedPresses == 0
    {
      pressed, animating := false, false;
      acceptedPresses, completions := 0, 0;
    }

    /** The hook's isInteractive for the current `disabled`. */
    function Interactive(disabled: bool): (r: bool)
      reads this
      ensures r <==> !disabled && !animating
    {
      IsInteractive(State(), disabled)
    }

    /** The press handler; a rejected press changes nothing and schedules nothing. */
    method HandlePress(disabled: bool) returns (accepted: bool)
      requires Valid()
      modifies this
      ensures Valid()
      ensures accepted == old(Interactive(disabled))
      ensures accepted ==> pressed && animating && acceptedPresses == old(acceptedPresses) + 1
      ensures !accepted ==> State() == old(State()) && acceptedPresses == old(acceptedPresses)
      ensures completions == old(completions)
      ensures State() == Step(old(State()), Press(disabled))
    {
      if !Interactive(disabled) {
        return false;
      }
      pressed := true;
      animating := true;
      acceptedPresses := acceptedPresses + 1;
      accepted := true;
    }

    /** The first timer continuation, after the animation duration. */
    method ReleaseTimerFires()
      requires Valid() && pressed
      modifies this`pressed
      ensures Valid() && !pressed && animating
      ensures State() == Step(old(State()), ReleaseTimer)
    {
      pressed := false;
    }

    /** The second timer continuation: ends the animation and calls the callback if one was given. */
    method SettleTimerFires(hasOnAnimationComplete: bool) returns (callbackCalled: bool)
      requires Valid() && animating && !pressed
      modifies this`animating, this`completions
      ensures Valid() && State() == Initial()
      ensures callbackCalled == hasOnAnimationComplete
      ensures completions == old(completions) + 1
      ensures State() == Step(old(State()), SettleTimer)
    {
      animating := false;
      completions := completions + 1;
      callbackCalled := hasOnAnimationComplete;
    }
  }
}
