/** How the shell turns each descriptor's `current`/`previous` flags into
    the activity state of the mounted screen: while the side menu is open,
    the screen on display is demoted to "previous" (it stays mounted behind
    the menu) and the screen that was behind it is released. */
module ScreenActivity {
  import opened ScreenRender

  /** Activity states of a mounted screen. */
  const Inactive: nat := 0
  const TransitioningOrBelowTop: nat := 1
  const OnTop: nat := 2

  /** The flags after the menu-active rewrite, as a value. */
  function MenuFlags(current: bool, previous: bool, isMenuActive: bool): (r: (bool, bool))
    ensures !isMenuActive ==> r == (current, previous)
    ensures isMenuActive ==> r.0 == (current && previous)
    ensures isMenuActive ==> r.1 == (current && !previous)
  {
    if !isMenuActive then (current, previous)
    else if previous then (current, false)
    else if current then (false, true)
    else (false, false)
  }

  /** The rewrite as the render callback performs it, reassigning the two
      flags in place. */
  method AdjustForMenu(current: bool, previous: bool, isMenuActive: bool) returns (c: bool, p: bool)
    ensures (c, p) == MenuFlags(current, previous, isMenuActive)
  {
    c, p := current, previous;
    if isMenuActive {
      if p {
        p := false;
      } else if c {
        c := false;
        p := true;
      }
    }
  }

  /** `current ? 2 : previous ? 1 : 0`. */
  function ActivityState(current: bool, previous: bool): (s: nat)
    ensures s <= OnTop
    ensures s == OnTop <==> current
    ensures s == TransitioningOrBelowTop <==> !current && previous
    ensures s == Inactive <==> !current && !previous
  {
    if current then OnTop else if previous then TransitioningOrBelowTop else Inactive
  }

  /** The activity state given to each mounted screen, in render order. */
  function RenderedStates(screens: seq<Descriptor>, isMenuActive: bool): (states: seq<nat>)
    ensures |states| == |screens|
  {
    seq(|screens|, k requires 0 <= k < |screens| =>
      var f := MenuFlags(screens[k].current, screens[k].previous, isMenuActive);
      ActivityState(f.0, f.1))
  }

  /** With the menu closed, each screen's state follows its own flags. */
  lemma {:induction false} StatesWithMenuClosed(screens: seq<Descriptor>, k: nat)
    requires k < |screens|
    ensures var s := RenderedStates(screens, false)[k];
            && (s == OnTop <==> screens[k].current)
            && (s == TransitioningOrBelowTop <==> !screens[k].current && screens[k].previous)
            && (s == Inactive <==> !screens[k].current && !screens[k].previous)
  {
  }

  /** With the menu open, the screen that was on top (and not also marked
      previous) is kept one level down, and every other screen is released;
      a screen marked both current and previous stays on top. */
  lemma {:induction false} StatesWithMenuOpen(screens: seq<Descriptor>, k: nat)
    requires k < |screens|
    ensures var s := RenderedStates(screens, true)[k];
            && (s == OnTop <==> screens[k].current && screens[k].previous)
            && (s == TransitioningOrBelowTop <==> screens[k].current && !screens[k].previous)
            && (s == Inactive <==> !screens[k].current)
  {
  }

  /** For the shell's own plan, when the navigation model reports a single
      current position: with the menu open no screen is on top and at most
      one is kept behind it; with the menu closed at most one screen is on
      top and at most one is transitioning. */
  lemma {:induction false} PlanStates(tabs: seq<Tab>, isCurrentScreen: CurrentScreenQuery, route: RouteMatcher, isMenuActive: bool)
    requires SingleCurrent(isCurrentScreen) && DistinctPositions(tabs)
    ensures var states := RenderedStates(Descriptors(tabs, isCurrentScreen, route), isMenuActive);
            && (isMenuActive ==> forall k :: 0 <= k < |states| ==> states[k] != OnTop)
            && (forall k1, k2 :: 0 <= k1 < |states| && 0 <= k2 < |states| && states[k1] == OnTop && states[k2] == OnTop ==> k1 == k2)
            && (forall k1, k2 ::
                  (0 <= k1 < |states| && 0 <= k2 < |states| &&
                   states[k1] == TransitioningOrBelowTop && states[k2] == TransitioningOrBelowTop) ==> k1 == k2)
  {
    var ds := Descriptors(tabs, isCurrentScreen, route);
    var states := RenderedStates(ds, isMenuActive);
    NeverCurrentAndPrevious(tabs, isCurrentScreen, route);
    AtMostOneCurrent(tabs, isCurrentScreen, route);
    forall k | 0 <= k < |states|
      ensures isMenuActive ==> states[k] != OnTop
      ensures states[k] == OnTop ==> ds[k].current
      ensures states[k] == TransitioningOrBelowTop ==> if isMenuActive then ds[k].current else ds[k].previous
    {
      var t, x := EntryPosition(tabs, k, isCurrentScreen, route);
      assert !(isCurrentScreen(t, x) && isCurrentScreen(t, x + 1));
      if isMenuActive {
        StatesWithMenuOpen(ds, k);
      } else {
        StatesWithMenuClosed(ds, k);
      }
    }
  }
}
