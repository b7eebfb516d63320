/** The shell's horizontal-swipe rule: which swipe directions are enabled,
    and what a finished swipe does, given whether the current tab can go
    back and whether the side menu is open. */
module NavSwipe {

  datatype SwipeAction = GoBack | OpenMenu | CloseMenu | NoAction

  /** A leftward swipe is enabled exactly when finishing one would change
      the shell: go back, or open a menu that is closed. */
  function CanSwipeLeft(canGoBack: bool, isMenuActive: bool): (b: bool)
    ensures b <==> Changes(Perform(OnNavSwipeEnd(-1.0, canGoBack, isMenuActive), isMenuActive), isMenuActive)
  {
    canGoBack || !isMenuActive
  }

  /** A rightward swipe is enabled exactly when finishing one would change
      the shell: close the open menu. */
  function CanSwipeRight(isMenuActive: bool): (b: bool)
    ensures forall canGoBack: bool ::
              b <==> Changes(Perform(OnNavSwipeEnd(1.0, canGoBack, isMenuActive), isMenuActive), isMenuActive)
  {
    isMenuActive
  }

  /** What the end of a swipe of horizontal extent `dx` does. */
  function OnNavSwipeEnd(dx: real, canGoBack: bool, isMenuActive: bool): (a: SwipeAction)
    ensures a == GoBack <==> dx < 0.0 && canGoBack
    ensures a == OpenMenu <==> dx < 0.0 && !canGoBack
    ensures a == CloseMenu <==> dx > 0.0 && isMenuActive
    ensures a == NoAction <==> dx == 0.0 || (dx > 0.0 && !isMenuActive)
  {
    if dx < 0.0 then
      if canGoBack then GoBack else OpenMenu
    else if dx > 0.0 then
      if isMenuActive then CloseMenu else NoAction
    else NoAction
  }

  /** The shell state a swipe can change: whether the tab went back one
      screen, and whether the menu is open afterwards. */
  datatype Outcome = Outcome(wentBack: bool, menuActive: bool)

  /** Performs an action: `goBack()` leaves the menu as it was, the two
      menu actions set it. */
  function Perform(a: SwipeAction, isMenuActive: bool): (o: Outcome)
    ensures o.wentBack <==> a == GoBack
    ensures a == OpenMenu ==> o.menuActive
    ensures a == CloseMenu ==> !o.menuActive
    ensures a in {GoBack, NoAction} ==> o.menuActive == isMenuActive
  {
    match a
    case GoBack => Outcome(true, isMenuActive)
    case OpenMenu => Outcome(false, true)
    case CloseMenu => Outcome(false, false)
    case NoAction => Outcome(false, isMenuActive)
  }

  predicate Changes(o: Outcome, isMenuActive: bool) {
    o.wentBack || o.menuActive != isMenuActive
  }

  /** A finished swipe changes the shell exactly when its direction is one
      the shell enables: a leftward (negative) swipe when `CanSwipeLeft`, a
      rightward (positive) one when `CanSwipeRight`; a zero swipe never
      changes it. */
  lemma SwipeChangesIffEnabled(dx: real, canGoBack: bool, isMenuActive: bool)
    ensures var o := Perform(OnNavSwipeEnd(dx, canGoBack, isMenuActive), isMenuActive);
            && (dx < 0.0 ==> (Changes(o, isMenuActive) <==> CanSwipeLeft(canGoBack, isMenuActive)))
            && (dx > 0.0 ==> (Changes(o, isMenuActive) <==> CanSwipeRight(isMenuActive)))
            && (dx == 0.0 ==> !Changes(o, isMenuActive))
  {
  }

  /** After any positive swipe the menu is closed and nothing went back;
      after a negative swipe the tab went back or the menu is open. */
  lemma SwipeOutcome(dx: real, canGoBack: bool, isMenuActive: bool)
    ensures var o := Perform(OnNavSwipeEnd(dx, canGoBack, isMenuActive), isMenuActive);
            && (dx > 0.0 ==> !o.menuActive && !o.wentBack)
            && (dx < 0.0 ==> (o.wentBack <==> canGoBack) && (!canGoBack ==> o.menuActive))
  {
  }
}
