# Mobile shell screen-render bookkeeping, in Dafny

This project models the one piece of bookkeeping in the social app's mobile
shell (`src/view/shell/mobile/index.tsx`) that can be modelled apart from the
view tree: how the shell works out which screens to keep mounted, and in
what state.

- **Screen-render planner** (`screen_render.dfy`, module `ScreenRender`).
  `constructScreenRenderDesc` walks the navigation model's tabs in order. For
  each tab it takes the tab's back list, then a copy of the tab's current
  screen re-indexed with the tab's own index. For every such screen it emits
  a render descriptor with:
  - the route-match result;
  - the React key `t<tabId>-s<index>`;
  - the navigation index `(tabId, screenId)`;
  - `current` and `previous` flags read from `isCurrentScreen`;
  - the tab's new-tab flag.

  While doing so it accumulates `hasNewTab` and the icon of the current
  screen. It is modelled as `ConstructScreenRenderDesc`, whose outer `for`
  loop runs over the tabs. `DescribeTab` is the per-tab `map` whose callback
  updates the enclosing `icon` and `hasNewTab`. Both methods are proved
  against specification functions (`Descriptors`, `AnyNewTab`,
  `LastCurrentIcon`). Lemmas about those functions state the listed
  properties.
- **Decimal rendering** (`decimal.dfy`, module `Decimal`). This is how a
  template literal renders an integral tab id or index that is a safe
  integer (below 2^53); larger numbers are left out (see below). It comes
  with a parser, so that keys can be shown to be injective.
- **Per-screen activity state** (`screen_activity.dfy`, module
  `ScreenActivity`). While the side menu is open, the render callback
  rewrites each descriptor's flags: a screen that is `previous` loses that
  flag, and a screen that is `current` but not `previous` becomes `previous`.
  The flags then map to `activityState` 2/1/0.
- **Swipe rule** (`nav_swipe.dfy`, module `NavSwipe`). This covers
  `canSwipeLeft`, `canSwipeRight` and `onNavSwipeEnd`: a finished swipe goes
  back, opens the menu, closes the menu or does nothing.

The navigation model is given as a snapshot. It is a sequence of `Tab`
values (id, the list `getBackList(5)` returned, current screen, index,
new-tab flag). `isCurrentScreen` and the route matcher `match` are passed in
as function-valued parameters, frozen for one render pass. Two guarantees
of the navigation model are not modelled. The lemmas that need them take
them as hypotheses:
- `SingleCurrent`: `isCurrentScreen` holds for at most one (tab id, index)
  pair. `NeverCurrentAndPrevious`, `AtMostOneCurrent`,
  `PreviousIsBehindCurrent`, `ActiveScreenDecidesIcon` and `PlanStates`
  take it.
- `DistinctPositions`: no two screens share a tab id and an index.
  `KeysDistinct`, `AtMostOneCurrent`, `ActiveScreenDecidesIcon` and
  `PlanStates` take it.

Two behaviours of the code that a reader might not expect are modelled as
written:
- With the menu open, a screen flagged both `current` and `previous` keeps
  `current`, because the `previous` branch is tested first. So "no screen
  stays current while the menu is open" holds only when no descriptor carries
  both flags. `NeverCurrentAndPrevious` proves that this is so under
  `SingleCurrent`, and `PlanStates` combines the two facts.
- The plan has one descriptor per back-list screen plus one per tab. So an
  active tab with no back list and a new tab with one back-list screen give
  three descriptors: the active tab's screen, then the new tab's back-list
  screen, then the new tab's current screen (`TwoTabExample`).

## Model

| member | source | states |
|---|---|---|
| `ScreenRender.ConstructScreenRenderDesc` | src/view/shell/mobile/index.tsx:417-453 | The loop returns exactly the tab-by-tab plan `Descriptors(tabs)`. `hasNewTab` is true iff some tab is new, and false for no tabs. `icon` is the icon of the last current descriptor in output order, or the default. |
| `ScreenRender.DescribeTab` | src/view/shell/mobile/index.tsx:426-445 | One tab's `map` yields that tab's descriptors, in back-list-then-current order. The enclosing `icon` ends as the icon of the tab's last current screen, or stays unchanged if none is current. `hasNewTab` becomes `hasNewTab` or the tab's flag. |
| `ScreenRender.TabScreens` | src/view/shell/mobile/index.tsx:426-429 | A tab's screen list is its back list, entry for entry, followed by one more screen with the current screen's URL and id and the tab's own index. |
| `ScreenRender.Describe` | src/view/shell/mobile/index.tsx:430-444 | A screen's descriptor carries the screen's route match, the key of its (tab id, index) position and the navigation index (tab id, screen id). It is current iff the model reports that position as current, previous iff it reports the next index as current, and new iff the tab is. |
| `ScreenRender.Key` | src/view/shell/mobile/index.tsx:439 | The key starts with `t` and has at least four characters. That it reads back as its pair is `KeyRoundTrip`. |
| `ScreenRender.DescriptorsLength` | src/view/shell/mobile/index.tsx:425-446 | `screens` has length equal to the sum over tabs of (back-list length + 1). |
| `ScreenRender.DescriptorsConcat` | src/view/shell/mobile/index.tsx:425-447 | The plan of a concatenation of tab lists is the concatenation of their plans, so the output is concatenated in tab order. |
| `ScreenRender.DescriptorAt` | src/view/shell/mobile/index.tsx:425-446 | The j-th screen of tab i lands at offset (screens of the earlier tabs) + j and is described from that tab and that screen. |
| `ScreenRender.DescriptorOrigin` | src/view/shell/mobile/index.tsx:430-445 | Every descriptor comes from exactly such a (tab, screen) slot. |
| `ScreenRender.DescriptorFields` | src/view/shell/mobile/index.tsx:431-443 | Each descriptor comes from a screen s of a tab t. Its fields are: `matched == match(s.url)`, `key == Key(t.id, s.index)`, `navIdx == (t.id, s.id)`, `current == isCurrentScreen(t.id, s.index)`, `previous == isCurrentScreen(t.id, s.index + 1)` and `isNewTab == t.isNewTab`. |
| `ScreenRender.CurrentScreenEntry` | src/view/shell/mobile/index.tsx:428-442 | The entry right after a tab's back list is its current screen. It is keyed and flagged with the tab's own index, and keeps the current screen's id and URL. |
| `ScreenRender.BackListEntry` | src/view/shell/mobile/index.tsx:427-442 | Back-list entries keep their own index, id and order within their tab's block. |
| `Decimal.Format` | src/view/shell/mobile/index.tsx:439 | A number is rendered in the key as a non-empty run of digits. It has no leading zero, except for 0 itself. |
| `ScreenRender.KeyRoundTrip` | src/view/shell/mobile/index.tsx:439 | Parsing the key `t<tabId>-s<index>` gives back the (tabId, index) pair. |
| `ScreenRender.KeyInjective` | src/view/shell/mobile/index.tsx:439 | Two keys are equal iff their tab ids and indices are equal. |
| `ScreenRender.KeysDistinct` | src/view/shell/mobile/index.tsx:439 | If no two screens share a tab id and an index, all descriptors have pairwise distinct keys. |
| `ScreenRender.NewTabIffSomeDescriptor` | src/view/shell/mobile/index.tsx:437-443 | Some tab is new iff some descriptor carries the new-tab flag, since every tab contributes at least one descriptor. |
| `ScreenRender.IconAfterConcat` | src/view/shell/mobile/index.tsx:434-436 | Scanning the plan for the icon across two blocks is the same as scanning the second block starting from the icon the first left. |
| `ScreenRender.IconWhenNoneCurrent` | src/view/shell/mobile/index.tsx:423-449 | When no descriptor is current, the icon keeps its starting value (`magnifying-glass` for the plan). |
| `ScreenRender.IconIsLastCurrent` | src/view/shell/mobile/index.tsx:434-436 | If descriptor k is current and no later one is, the icon is k's match icon. |
| `ScreenRender.NeverCurrentAndPrevious` | src/view/shell/mobile/index.tsx:431-432 | If `isCurrentScreen` holds for one position at most, no descriptor is both current and previous. |
| `ScreenRender.AtMostOneCurrent` | src/view/shell/mobile/index.tsx:431-442 | Assume one current position at most and distinct positions. Then at most one descriptor is current and at most one is previous. |
| `ScreenRender.PreviousIsBehindCurrent` | src/view/shell/mobile/index.tsx:431-432 | Suppose tab i's current index is the position the model reports as current, and the model reports one current position at most. Then tab i's index is at least 1, and every descriptor flagged previous has the key of tab i at index − 1. |
| `ScreenRender.ActiveScreenDecidesIcon` | src/view/shell/mobile/index.tsx:431-449 | Suppose the model reports one current position at most, positions are distinct, and tab i's current index is the position the model reports as current. Then that tab's last entry is the only current descriptor, and the plan's icon is its match icon. |
| `ScreenRender.TwoTabExample` | src/view/shell/mobile/index.tsx:417-453 | Worked example with an active one-screen tab and a new tab holding one back-list screen. It gives three descriptors with keys `t1-s0`, `t2-s0` and `t2-s1`. Only the first is current, `hasNewTab` holds, and the icon is the first screen's. |
| `ScreenActivity.MenuFlags` | src/view/shell/mobile/index.tsx:308-316 | With the menu closed the flags are unchanged. With it open, `current` survives only together with `previous`, and the new `previous` is `current && !previous`. |
| `ScreenActivity.AdjustForMenu` | src/view/shell/mobile/index.tsx:308-316 | The in-place reassignment of the two flags computes `MenuFlags`. |
| `ScreenActivity.ActivityState` | src/view/shell/mobile/index.tsx:321 | The state is 2 iff current, 1 iff previous and not current, and 0 iff neither. |
| `ScreenActivity.RenderedStates` | src/view/shell/mobile/index.tsx:306-321 | One activity state per descriptor, in render order. |
| `ScreenActivity.StatesWithMenuClosed` | src/view/shell/mobile/index.tsx:308-321 | With the menu closed, each screen's state follows its own flags. |
| `ScreenActivity.StatesWithMenuOpen` | src/view/shell/mobile/index.tsx:308-321 | With the menu open, a screen is 1 iff it was current and not previous. It is 2 only if it was both, and 0 iff it was not current. |
| `ScreenActivity.PlanStates` | src/view/shell/mobile/index.tsx:306-321 | Assume the model reports one current position at most and positions are distinct. Then with the menu open no screen has state 2. In every case at most one screen has state 2 and at most one has state 1. |
| `NavSwipe.CanSwipeLeft` | src/view/shell/mobile/index.tsx:214 | A leftward swipe is enabled iff finishing one changes the shell: the tab goes back or a closed menu opens. |
| `NavSwipe.CanSwipeRight` | src/view/shell/mobile/index.tsx:215 | A rightward swipe is enabled iff finishing one changes the shell, whether or not the tab can go back: an open menu closes. |
| `NavSwipe.OnNavSwipeEnd` | src/view/shell/mobile/index.tsx:216-228 | A negative dx goes back iff the tab can go back, and otherwise opens the menu. A positive dx closes the menu iff it is open, and otherwise does nothing. A zero dx does nothing. |
| `NavSwipe.Perform` | src/view/shell/mobile/index.tsx:218-226 | Only `GoBack` goes back, and it leaves the menu as it was. Opening sets the menu, closing clears it, and doing nothing changes nothing. |
| `NavSwipe.SwipeChangesIffEnabled` | src/view/shell/mobile/index.tsx:214-228 | A negative swipe changes the shell iff `canSwipeLeft` (the tab can go back or the menu is closed). A positive swipe changes it iff `canSwipeRight` (the menu is open). A zero swipe never changes it. |
| `NavSwipe.SwipeOutcome` | src/view/shell/mobile/index.tsx:216-228 | After a positive swipe the menu is closed and nothing went back. After a negative swipe, the tab went back iff it could, and otherwise the menu is open. |

## Left out

- src/view/com/posts/FeedItem.tsx is not part of this model. It is a view
  component whose actions call an external store, the clipboard, toasts and
  analytics, and its only derivation is a few lines of view selection.
- JSX and view-tree construction, style sheets and the `Btn` icon table are
  presentation only.
- Animation and gesture wiring (`Animated.timing`, interpolation, translate
  and opacity arithmetic, `HorzSwipe`, the `useEffect` sequencing) is left
  out. It is floating-point UI animation and React lifecycle timing.
- `clamp(safeAreaInsets.bottom, 15, 40)` is left out: a floating-point layout
  helper defined outside this file.
- `onPressHome` and `onPressNotifications` are left out. They branch on store
  state read after calling `switchTo` on the navigation model, whose
  behaviour is not part of this model.
- The navigation model (`getBackList`, `isCurrentScreen`, `tabs`,
  `canGoBack`, `goBack`) and the route matcher are inputs, not models. In
  particular, nothing asserts that `getBackList(5)` returns at most five
  screens. The facts the model would guarantee are hypotheses
  (`SingleCurrent`, `DistinctPositions`) where a lemma needs them.
- `ConstructScreenRenderDesc`: the code adds the new fields to the object
  `match` returned, through `Object.assign`. If `match` shared result objects
  between URLs, descriptors would alias. The model builds a fresh descriptor
  value instead.
- `ScreenRender.Key`: its own contract states only the key's shape. That a
  key reads back as its (tab id, index) pair is the separate lemma
  `KeyRoundTrip`, so that a mention of a key does not bring the parser in.
- Tab ids and screen indices are natural numbers. JavaScript numbers that are
  negative, fractional or NaN are not modelled, and neither is their
  rendering in keys. `dx` is a real number; NaN is not modelled.
- `Decimal.Format`, `ScreenRender.Key` and the `previous` flag assume tab ids
  and indices are safe integers (below 2^53). The model's integers are
  unbounded, so it does not capture that JavaScript renders numbers from
  1e21 on in exponent form, nor that `index + 1` rounds above 2^53.
- A match result is modelled as a component name, a parameter map and an
  icon name. React component references are not modelled.
- That the plan is the same on every call over an unchanged snapshot needs
  no lemma of its own: the ensures of `ConstructScreenRenderDesc` fix
  `screens`, `hasNewTab` and `icon` as functions of the snapshot.
