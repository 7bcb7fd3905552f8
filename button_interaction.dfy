/**
 * useButtonInteraction: three boolean cells (hovered, focused, pressed) set by the
 * enter/focus/press handlers only while the button is not disabled, and cleared by
 * the leave/blur/release handlers unconditionally. `disabled` is the hook's argument,
 * which every handler sees at the time it runs.
 */
module ButtonInteraction {

  datatype InteractionState = InteractionState(hovered: bool, focused: bool, pressed: bool)

  datatype InteractionEvent = MouseEnter | MouseLeave | Focus | Blur | Press | Release

  /** All three flags start false. */
  function Idle(): InteractionState {
    InteractionState(false, false, false)
  }

  /**
   * One handler call. A flag can only become set by its own handler while the button is
   * enabled; mouse leave clears hovered and pressed but keeps focus; blur clears all.
   */
  function Step(s: InteractionState, e: InteractionEvent, disabled: bool): (r: InteractionState)
    ensures r.hovered ==> s.hovered || (e == MouseEnter && !disabled)
    ensures r.focused ==> s.focused || (e == Focus && !disabled)
    ensures r.pressed ==> s.pressed || (e == Press && !disabled)
    ensures e == MouseLeave ==> !r.hovered && !r.pressed && r.focused == s.focused
    ensures e == Blur ==> r == Idle()
    ensures e == Release ==> !r.pressed && r.hovered == s.hovered && r.focused == s.focused
    ensures !disabled && e == MouseEnter ==> r.hovered
    ensures !disabled && e == Focus ==> r.focused
    ensures !disabled && e == Press ==> r.pressed
    ensures disabled && e in {MouseEnter, Focus, Press} ==> r == s
    ensures e == MouseEnter ==> r.focused == s.focused && r.pressed == s.pressed
    ensures e == Focus ==> r.hovered == s.hovered && r.pressed == s.pressed
    ensures e == Press ==> r.hovered == s.hovered && r.focused == s.focused
  {
    match e
    case MouseEnter => if disabled then s else s.(hovered := true)
    case MouseLeave => s.(hovered := false, pressed := false)
    case Focus => if disabled then s else s.(focused := true)
    case Blur => Idle()
    case Press => if disabled then s else s.(pressed := true)
    case Release => s.(pressed := false)
  }

  /** A sequence of handler calls while `disabled` has one fixed value. */
  function Run(s: InteractionState, events: seq<InteractionEvent>, disabled: bool): InteractionState
    decreases |events|
  {
    if events == [] then s else Run(Step(s, events[0], disabled), events[1..], disabled)
  }

  /** While the button is disabled no handler sets a flag: every flag at the end was already set. */
  lemma {:induction false} DisabledRunSetsNothing(s: InteractionState, events: seq<InteractionEvent>)
    ensures var r := Run(s, events, true);
            (r.hovered ==> s.hovered) && (r.focused ==> s.focused) && (r.pressed ==> s.pressed)
    decreases |events|
  {
    if events != [] {
      DisabledRunSetsNothing(Step(s, events[0], true), events[1..]);
    }
  }

  /** A disabled button that starts idle stays idle whatever the user does. */
  lemma DisabledButtonStaysIdle(events: seq<InteractionEvent>)
    ensures Run(Idle(), events, true) == Idle()
  {
    DisabledRunSetsNothing(Idle(), events);
  }

  /** A run that ends with a blur leaves the button idle, whatever came before. */
  lemma {:induction false} RunEndingInBlurIsIdle(s: InteractionState, events: seq<InteractionEvent>, disabled: bool)
    requires events != [] && events[|events| - 1] == Blur
    ensures Run(s, events, disabled) == Idle()
    decreases |events|
  {
    if |events| == 1 {
      assert Run(Step(s, Blur, disabled), [], disabled) == Idle();
    } else {
      assert events[1..][|events[1..]| - 1] == Blur;
      RunEndingInBlurIsIdle(Step(s, events[0], disabled), events[1..], disabled);
    }
  }

  /** The hook instance: the three state cells the handlers write. */
  class ButtonInteractionHook {
    var hovered: bool
    var focused: bool
    var pressed: bool

    function State(): InteractionState
      reads this
    {
      InteractionState(hovered, focused, pressed)
    }

    constructor ()
      ensures State() == Idle()
    {
      hovered, focused, pressed := false, false, false;
    }

    method HandleMouseEnter(disabled: bool)
      modifies this`hovered
      ensures hovered == (old(hovered) || !disabled)
      ensures State() == Step(old(State()), MouseEnter, disabled)
    {
      if !disabled {
        hovered := true;
      }
    }

    method HandleMouseLeave()
      modifies this`hovered, this`pressed
      ensures !hovered && !pressed
      ensures forall d: bool :: State() == Step(old(State()), MouseLeave, d)
    {
      hovered := false;
      pressed := false;
    }

    method HandleFocus(disabled: bool)
      modifies this`focused
      ensures focused == (old(focused) || !disabled)
      ensures State() == Step(old(State()), Focus, disabled)
    {
      if !disabled {
        focused := true;
      }
    }

    method HandleBlur()
      modifies this
      ensures State() == Idle()
      ensures forall d: bool :: State() == Step(old(State()), Blur, d)
    {
      focused := false;
      hovered := false;
      pressed := false;
    }

    method HandlePress(disabled: bool)
      modifies this`pressed
      ensures pressed == (old(pressed) || !disabled)
      ensures State() == Step(old(State()), Press, disabled)
    {
      if !disabled {
        pressed := true;
      }
    }

    method HandleRelease()
      modifies this`pressed
      ensures !pressed
      ensures forall d: bool :: State() == Step(old(State()), Release, d)
    {
      pressed := false;
    }
  }
}
