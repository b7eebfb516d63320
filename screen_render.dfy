/** The mobile shell's screen-render planner: from a snapshot of the
    navigation model's tabs it builds one render descriptor per cached
    screen, tab by tab, and derives the `hasNewTab` flag and the icon of
    the screen currently on display. */
module ScreenRender {
  import opened Decimal

  datatype Option<T> = None | Some(value: T)

  type Icon = string

  /** The icon reported when no screen is current. */
  const DefaultIcon: Icon := "magnifying-glass"

  /** What the route matcher returns for a URL: the screen component to
      mount, the parameters extracted from the URL and the screen's icon. */
  datatype MatchResult = MatchResult(component: string, params: map<string, string>, icon: Icon)

  /** One entry of a tab's history: its URL, its position in the tab's
      history and its identifier. */
  datatype Screen = Screen(url: string, index: nat, id: nat)

  /** A snapshot of one tab of the navigation model. `backList` is what the
      tab's `getBackList(5)` returned; `index` is the position of `current`
      in the tab's history. */
  datatype Tab = Tab(id: nat, backList: seq<Screen>, current: Screen, index: nat, isNewTab: bool)

  /** What the shell needs to mount one screen. `navIdx` is the pair
      (tab id, screen id). */
  datatype Descriptor = Descriptor(
    matched: MatchResult,
    key: string,
    navIdx: (nat, nat),
    current: bool,
    previous: bool,
    isNewTab: bool)

  datatype RenderDesc = RenderDesc(icon: Icon, hasNewTab: bool, screens: seq<Descriptor>)

  /** The navigation model's `isCurrentScreen(tabId, index)`, frozen for one render pass. */
  type CurrentScreenQuery = (nat, nat) -> bool

  /** The route matcher `match(url)`. */
  type RouteMatcher = string -> MatchResult

  // ---------------------------------------------------------------------
  // Keys
  // ---------------------------------------------------------------------

  /** The React key of a screen: `t<tabId>-s<index>`. */
  function Key(tabId: nat, index: nat): (k: string)
    ensures |k| >= 4 && k[0] == 't'
  {
    "t" + Format(tabId) + "-s" + Format(index)
  }

  /** Reads a key back into its (tab id, screen index) pair. */
  ghost function ParseKey(k: string): Option<(nat, nat)>
  {
    if |k| == 0 || k[0] != 't' then None
    else
      var rest := k[1..];
      var n := DigitRun(rest);
      if n == 0 || n + 2 > |rest| || rest[n] != '-' || rest[n + 1] != 's' then None
      else
        var tail := rest[n + 2..];
        if tail == [] || !AllDigits(tail) then None
        else Some((Parse(rest[..n]), Parse(tail)))
  }

  lemma {:induction false} KeyRoundTrip(tabId: nat, index: nat)
    ensures ParseKey(Key(tabId, index)) == Some((tabId, index))
  {
    var a, b := Format(tabId), Format(index);
    var k := Key(tabId, index);
    var rest := k[1..];
    assert rest == a + ("-s" + b);
    DigitRunOfNumeral(a, "-s" + b);
    assert rest[..|a|] == a;
    assert rest[|a| + 2..] == b;
    ParseFormat(tabId);
    ParseFormat(index);
  }

  /** Two screens get the same key exactly when they have the same tab id
      and the same index. */
  lemma {:induction false} KeyInjective(t1: nat, i1: nat, t2: nat, i2: nat)
    ensures Key(t1, i1) == Key(t2, i2) <==> t1 == t2 && i1 == i2
  {
    KeyRoundTrip(t1, i1);
    KeyRoundTrip(t2, i2);
  }

  // ---------------------------------------------------------------------
  // Specification of the planner
  // ---------------------------------------------------------------------

  /** The screens a tab contributes: its back list, then a copy of its
      current screen whose index is replaced by the tab's index. */
  function TabScreens(tab: Tab): (ss: seq<Screen>)
    ensures |ss| == |tab.backList| + 1
    ensures forall j :: 0 <= j < |tab.backList| ==> ss[j] == tab.backList[j]
    ensures var c := ss[|tab.backList|];
            c.url == tab.current.url && c.id == tab.current.id && c.index == tab.index
  {
    tab.backList + [tab.current.(index := tab.index)]
  }

  /** The descriptor of one screen of a tab: it is keyed by the screen's
      (tab id, index) position, and it is current (previous) exactly when
      the navigation model reports that position (the next one) as current. */
  function Describe(tab: Tab, screen: Screen, isCurrentScreen: CurrentScreenQuery, route: RouteMatcher): (d: Descriptor)
    ensures d.matched == route(screen.url)
    ensures d.key == Key(tab.id, screen.index)
    ensures d.navIdx == (tab.id, screen.id)
    ensures d.current <==> isCurrentScreen(tab.id, screen.index)
    ensures d.previous <==> isCurrentScreen(tab.id, screen.index + 1)
    ensures d.isNewTab == tab.isNewTab
  {
    Descriptor(
      route(screen.url),
      Key(tab.id, screen.index),
      (tab.id, screen.id),
      isCurrentScreen(tab.id, screen.index),
      isCurrentScreen(tab.id, screen.index + 1),
      tab.isNewTab)
  }

  /** `screens.map(...)` for one tab. */
  function DescribeScreens(tab: Tab, ss: seq<Screen>, isCurrentScreen: CurrentScreenQuery, route: RouteMatcher): seq<Descriptor>
  {
    if ss == [] then []
    else DescribeScreens(tab, ss[..|ss| - 1], isCurrentScreen, route) + [Describe(tab, ss[|ss| - 1], isCurrentScreen, route)]
  }

  function TabDescriptors(tab: Tab, isCurrentScreen: CurrentScreenQuery, route: RouteMatcher): seq<Descriptor>
  {
    DescribeScreens(tab, TabScreens(tab), isCurrentScreen, route)
  }

  lemma {:induction false} DescribeScreensStep(tab: Tab, ss: seq<Screen>, j: nat, isCurrentScreen: CurrentScreenQuery, route: RouteMatcher)
    requires j < |ss|
    ensures DescribeScreens(tab, ss[..j + 1], isCurrentScreen, route)
         == DescribeScreens(tab, ss[..j], isCurrentScreen, route) + [Describe(tab, ss[j], isCurrentScreen, route)]
  {
    assert ss[..j + 1][..j] == ss[..j];
  }

  lemma {:induction false} DescribeScreensLength(tab: Tab, ss: seq<Screen>, isCurrentScreen: CurrentScreenQuery, route: RouteMatcher)
    ensures |DescribeScreens(tab, ss, isCurrentScreen, route)| == |ss|
  {
    if ss != [] {
      DescribeScreensLength(tab, ss[..|ss| - 1], isCurrentScreen, route);
    }
  }

  lemma {:induction false} DescribeScreensAt(tab: Tab, ss: seq<Screen>, j: nat, isCurrentScreen: CurrentScreenQuery, route: RouteMatcher)
    requires j < |ss|
    ensures |DescribeScreens(tab, ss, isCurrentScreen, route)| == |ss|
    ensures DescribeScreens(tab, ss, isCurrentScreen, route)[j] == Describe(tab, ss[j], isCurrentScreen, route)
  {
    var init := ss[..|ss| - 1];
    DescribeScreensLength(tab, init, isCurrentScreen, route);
    if j < |init| {
      DescribeScreensAt(tab, init, j, isCurrentScreen, route);
    }
  }

  lemma {:induction false} TabDescriptorsAt(tab: Tab, j: nat, isCurrentScreen: CurrentScreenQuery, route: RouteMatcher)
    requires j < |TabScreens(tab)|
    ensures |TabDescriptors(tab, isCurrentScreen, route)| == |TabScreens(tab)|
    ensures TabDescriptors(tab, isCurrentScreen, route)[j] == Describe(tab, TabScreens(tab)[j], isCurrentScreen, route)
  {
    DescribeScreensAt(tab, TabScreens(tab), j, isCurrentScreen, route);
  }

  /** The descriptors of all tabs, concatenated in tab order. */
  function Descriptors(tabs: seq<Tab>, isCurrentScreen: CurrentScreenQuery, route: RouteMatcher): seq<Descriptor>
  {
    if tabs == [] then []
    else Descriptors(tabs[..|tabs| - 1], isCurrentScreen, route)
         + TabDescriptors(tabs[|tabs| - 1], isCurrentScreen, route)
  }

  /** Sum over the tabs of (back-list length + 1). */
  function ScreenCount(tabs: seq<Tab>): nat
  {
    if tabs == [] then 0 else ScreenCount(tabs[..|tabs| - 1]) + |tabs[|tabs| - 1].backList| + 1
  }

  predicate AnyNewTab(tabs: seq<Tab>) {
    exists i :: 0 <= i < |tabs| && tabs[i].isNewTab
  }

  /** The icon left after scanning `ds` in order, starting from `fallback`
      and taking the icon of every current descriptor met. */
  function IconAfter(fallback: Icon, ds: seq<Descriptor>): Icon
  {
    if ds == [] then fallback
    else if ds[|ds| - 1].current then ds[|ds| - 1].matched.icon
    else IconAfter(fallback, ds[..|ds| - 1])
  }

  function LastCurrentIcon(ds: seq<Descriptor>): Icon
  {
    IconAfter(DefaultIcon, ds)
  }

  // ---------------------------------------------------------------------
  // The planner
  // ---------------------------------------------------------------------

  method ConstructScreenRenderDesc(tabs: seq<Tab>, isCurrentScreen: CurrentScreenQuery, route: RouteMatcher)
    returns (r: RenderDesc)
    ensures r.screens == Descriptors(tabs, isCurrentScreen, route)
    ensures r.hasNewTab <==> AnyNewTab(tabs)
    ensures r.icon == LastCurrentIcon(r.screens)
  {
    var hasNewTab := false;
    var icon := DefaultIcon;
    var screens: seq<Descriptor> := [];
    for t := 0 to |tabs|
      invariant screens == Descriptors(tabs[..t], isCurrentScreen, route)
      invariant hasNewTab <==> AnyNewTab(tabs[..t])
      invariant icon == LastCurrentIcon(screens)
    {
      var parsed;
      parsed, icon, hasNewTab := DescribeTab(tabs[t], isCurrentScreen, route, icon, hasNewTab);
      PrefixStep(tabs, t, isCurrentScreen, route);
      NewTabStep(tabs, t);
      IconAfterConcat(DefaultIcon, screens, parsed);
      screens := screens + parsed;
    }
    assert tabs[..|tabs|] == tabs;
    r := RenderDesc(icon, hasNewTab, screens);
  }

  /** The `tabScreens.map(...)` step for one tab: builds its descriptors
      and updates the enclosing `icon` and `hasNewTab` accumulators, as the
      callback does. */
  method DescribeTab(tab: Tab, isCurrentScreen: CurrentScreenQuery, route: RouteMatcher, icon0: Icon, hasNewTab0: bool)
    returns (parsed: seq<Descriptor>, icon: Icon, hasNewTab: bool)
    ensures parsed == TabDescriptors(tab, isCurrentScreen, route)
    ensures icon == IconAfter(icon0, parsed)
    ensures hasNewTab == (hasNewTab0 || tab.isNewTab)
  {
    var tabScreens := TabScreens(tab);
    parsed, icon, hasNewTab := [], icon0, hasNewTab0;
    for j := 0 to |tabScreens|
      invariant parsed == DescribeScreens(tab, tabScreens[..j], isCurrentScreen, route)
      invariant hasNewTab == (hasNewTab0 || (0 < j && tab.isNewTab))
      invariant icon == IconAfter(icon0, parsed)
    {
      var screen := tabScreens[j];
      var isCurrent := isCurrentScreen(tab.id, screen.index);
      var isPrevious := isCurrentScreen(tab.id, screen.index + 1);
      var matchRes := route(screen.url);
      if isCurrent {
        icon := matchRes.icon;
      }
      hasNewTab := hasNewTab || tab.isNewTab;
      var d := Descriptor(matchRes, Key(tab.id, screen.index), (tab.id, screen.id), isCurrent, isPrevious, tab.isNewTab);
      assert d == Describe(tab, screen, isCurrentScreen, route);
      DescribeTabStep(tab, tabScreens, j, parsed, d, icon0, isCurrentScreen, route);
      parsed := parsed + [d];
    }
    assert tabScreens[..|tabScreens|] == tabScreens;
  }

  /** One step of the callback: appending the next screen's descriptor
      extends the tab's partial plan by one screen, and the icon scan by
      that descriptor. */
  lemma {:induction false} DescribeTabStep(tab: Tab, ss: seq<Screen>, j: nat, parsed: seq<Descriptor>, d: Descriptor, icon0: Icon,
                        isCurrentScreen: CurrentScreenQuery, route: RouteMatcher)
    requires j < |ss|
    requires parsed == DescribeScreens(tab, ss[..j], isCurrentScreen, route)
    requires d == Describe(tab, ss[j], isCurrentScreen, route)
    ensures parsed + [d] == DescribeScreens(tab, ss[..j + 1], isCurrentScreen, route)
    ensures IconAfter(icon0, parsed + [d]) == if d.current then d.matched.icon else IconAfter(icon0, parsed)
  {
    DescribeScreensStep(tab, ss, j, isCurrentScreen, route);
    IconAfterSnoc(icon0, parsed, d);
  }

  /** What one more tab adds to the plan of a prefix of the tab list. */
  lemma {:induction false} PrefixStep(tabs: seq<Tab>, t: nat, isCurrentScreen: CurrentScreenQuery, route: RouteMatcher)
    requires t < |tabs|
    ensures Descriptors(tabs[..t + 1], isCurrentScreen, route)
         == Descriptors(tabs[..t], isCurrentScreen, route) + TabDescriptors(tabs[t], isCurrentScreen, route)
  {
    PrefixOfPrefix(tabs, t + 1, t);
  }

  lemma {:induction false} NewTabStep(tabs: seq<Tab>, t: nat)
    requires t < |tabs|
    ensures AnyNewTab(tabs[..t + 1]) <==> AnyNewTab(tabs[..t]) || tabs[t].isNewTab
  {
    assert tabs[..t + 1] == tabs[..t] + [tabs[t]];
    AnyNewTabSnoc(tabs[..t], tabs[t]);
  }

  lemma {:induction false} IconAfterSnoc(fallback: Icon, ds: seq<Descriptor>, d: Descriptor)
    ensures IconAfter(fallback, ds + [d]) == if d.current then d.matched.icon else IconAfter(fallback, ds)
  {
    assert (ds + [d])[..|ds|] == ds;
  }

  /** Scanning a concatenation is scanning its second part from where the
      first left off. */
  lemma {:induction false} IconAfterConcat(fallback: Icon, a: seq<Descriptor>, b: seq<Descriptor>)
    ensures IconAfter(fallback, a + b) == IconAfter(IconAfter(fallback, a), b)
  {
    if b == [] {
      assert a + b == a;
    } else {
      var b' := b[..|b| - 1];
      assert a + b == (a + b') + [b[|b| - 1]];
      assert b == b' + [b[|b| - 1]];
      IconAfterSnoc(fallback, a + b', b[|b| - 1]);
      IconAfterSnoc(IconAfter(fallback, a), b', b[|b| - 1]);
      IconAfterConcat(fallback, a, b');
    }
  }

  lemma {:induction false} AnyNewTabSnoc(tabs: seq<Tab>, tab: Tab)
    ensures AnyNewTab(tabs + [tab]) <==> AnyNewTab(tabs) || tab.isNewTab
  {
    var all := tabs + [tab];
    if tab.isNewTab {
      assert all[|tabs|].isNewTab;
    }
    if AnyNewTab(tabs) {
      var i :| 0 <= i < |tabs| && tabs[i].isNewTab;
      assert all[i].isNewTab;
    }
  }

  // ---------------------------------------------------------------------
  // Properties of the plan
  // ---------------------------------------------------------------------

  // Sequence facts stated generically, where the solver proves them cheaply.

  lemma {:induction false} IndexInMiddle<T>(a: seq<T>, b: seq<T>, c: seq<T>, j: nat, k: nat)
    requires j < |b| && k == |a| + j
    ensures k < |a + b + c| && (a + b + c)[k] == b[j]
  {
  }

  lemma {:induction false} TakeDrop<T>(s: seq<T>, n: nat)
    requires n <= |s|
    ensures s[..n] + s[n..] == s
  {
  }

  lemma {:induction false} PrefixOfPrefix<T>(s: seq<T>, n: nat, m: nat)
    requires m <= n <= |s|
    ensures s[..n][..m] == s[..m]
  {
  }

  lemma {:induction false} AppendAssoc<T>(a: seq<T>, b: seq<T>, c: seq<T>)
    ensures (a + b) + c == a + (b + c)
  {
  }

  /** The plan of a concatenation of tab lists is the concatenation of their plans. */
  lemma {:induction false} DescriptorsConcat(a: seq<Tab>, b: seq<Tab>, isCurrentScreen: CurrentScreenQuery, route: RouteMatcher)
    ensures Descriptors(a + b, isCurrentScreen, route)
         == Descriptors(a, isCurrentScreen, route) + Descriptors(b, isCurrentScreen, route)
  {
    if b == [] {
      assert a + b == a;
    } else {
      var b', x := b[..|b| - 1], b[|b| - 1];
      var da, db', dx := Descriptors(a, isCurrentScreen, route), Descriptors(b', isCurrentScreen, route), TabDescriptors(x, isCurrentScreen, route);
      assert (a + b)[..|a + b| - 1] == a + b';
      assert (a + b)[|a + b| - 1] == x;
      assert Descriptors(a + b, isCurrentScreen, route) == Descriptors(a + b', isCurrentScreen, route) + dx;
      DescriptorsConcat(a, b', isCurrentScreen, route);
      assert Descriptors(b, isCurrentScreen, route) == db' + dx;
      AppendAssoc(da, db', dx);
    }
  }

  /** `screens` has one entry per back-list screen plus one per tab. */
  lemma {:induction false} DescriptorsLength(tabs: seq<Tab>, isCurrentScreen: CurrentScreenQuery, route: RouteMatcher)
    ensures |Descriptors(tabs, isCurrentScreen, route)| == ScreenCount(tabs)
  {
    if tabs != [] {
      DescriptorsLength(tabs[..|tabs| - 1], isCurrentScreen, route);
      DescribeScreensLength(tabs[|tabs| - 1], TabScreens(tabs[|tabs| - 1]), isCurrentScreen, route);
    }
  }

  /** The plan of a tab list is the plan of a prefix followed by the plan
      of the rest. */
  lemma {:induction false} DescriptorsTakeDrop(tabs: seq<Tab>, n: nat, isCurrentScreen: CurrentScreenQuery, route: RouteMatcher)
    requires n <= |tabs|
    ensures Descriptors(tabs, isCurrentScreen, route)
         == Descriptors(tabs[..n], isCurrentScreen, route) + Descriptors(tabs[n..], isCurrentScreen, route)
  {
    TakeDrop(tabs, n);
    DescriptorsConcat(tabs[..n], tabs[n..], isCurrentScreen, route);
  }

  /** Tab i's block of descriptors follows the earlier tabs' descriptors:
      its j-th entry is at offset k = ScreenCount(tabs[..i]) + j. */
  lemma {:induction false} BlockAt(tabs: seq<Tab>, i: nat, j: nat, k: nat, isCurrentScreen: CurrentScreenQuery, route: RouteMatcher)
    requires i < |tabs| && j < |TabDescriptors(tabs[i], isCurrentScreen, route)|
    requires k == ScreenCount(tabs[..i]) + j
    ensures k < |Descriptors(tabs, isCurrentScreen, route)|
    ensures Descriptors(tabs, isCurrentScreen, route)[k] == TabDescriptors(tabs[i], isCurrentScreen, route)[j]
  {
    DescriptorsLength(tabs[..i], isCurrentScreen, route);
    DescriptorsTakeDrop(tabs, i + 1, isCurrentScreen, route);
    PrefixStep(tabs, i, isCurrentScreen, route);
    IndexInMiddle(Descriptors(tabs[..i], isCurrentScreen, route), TabDescriptors(tabs[i], isCurrentScreen, route), Descriptors(tabs[i + 1..], isCurrentScreen, route), j, k);
  }

  /** The j-th screen of tab i sits at offset ScreenCount(tabs[..i]) + j of
      `screens`, and its descriptor is built from that tab and that screen. */
  lemma {:induction false} DescriptorAt(tabs: seq<Tab>, i: nat, j: nat, isCurrentScreen: CurrentScreenQuery, route: RouteMatcher)
    requires i < |tabs| && j < |TabScreens(tabs[i])|
    ensures ScreenCount(tabs[..i]) + j < |Descriptors(tabs, isCurrentScreen, route)|
    ensures Descriptors(tabs, isCurrentScreen, route)[ScreenCount(tabs[..i]) + j]
         == Describe(tabs[i], TabScreens(tabs[i])[j], isCurrentScreen, route)
  {
    TabDescriptorsAt(tabs[i], j, isCurrentScreen, route);
    BlockAt(tabs, i, j, ScreenCount(tabs[..i]) + j, isCurrentScreen, route);
  }

  /** Every offset below ScreenCount(tabs) falls in one tab's block: at
      offset j of tab i's block, which starts at ScreenCount(tabs[..i]). */
  lemma {:induction false} TabOfOffset(tabs: seq<Tab>, k: nat) returns (i: nat, j: nat)
    requires k < ScreenCount(tabs)
    ensures i < |tabs| && j < |TabScreens(tabs[i])| && k == ScreenCount(tabs[..i]) + j
  {
    var init := tabs[..|tabs| - 1];
    if k < ScreenCount(init) {
      i, j := TabOfOffset(init, k);
      PrefixOfPrefix(tabs, |tabs| - 1, i);
      assert init[i] == tabs[i];
    } else {
      i, j := |tabs| - 1, k - ScreenCount(init);
    }
  }

  /** Every descriptor comes from one screen of one tab: the j-th screen of
      tab i, at offset ScreenCount(tabs[..i]) + j. */
  lemma {:induction false} DescriptorOrigin(tabs: seq<Tab>, k: nat, isCurrentScreen: CurrentScreenQuery, route: RouteMatcher)
    returns (i: nat, j: nat)
    requires k < |Descriptors(tabs, isCurrentScreen, route)|
    ensures i < |tabs| && j < |TabScreens(tabs[i])| && k == ScreenCount(tabs[..i]) + j
    ensures Descriptors(tabs, isCurrentScreen, route)[k] == Describe(tabs[i], TabScreens(tabs[i])[j], isCurrentScreen, route)
  {
    DescriptorsLength(tabs, isCurrentScreen, route);
    i, j := TabOfOffset(tabs, k);
    DescriptorAt(tabs, i, j, isCurrentScreen, route);
  }

  /** Each descriptor, field by field: it is built from a screen `s` of a
      tab `tab` of the snapshot. */
  lemma {:induction false} DescriptorFields(tabs: seq<Tab>, k: nat, isCurrentScreen: CurrentScreenQuery, route: RouteMatcher)
    returns (tab: Tab, s: Screen)
    requires k < |Descriptors(tabs, isCurrentScreen, route)|
    ensures tab in tabs && s in TabScreens(tab)
    ensures var d := Descriptors(tabs, isCurrentScreen, route)[k];
            && d.matched == route(s.url)
            && d.key == Key(tab.id, s.index)
            && d.navIdx == (tab.id, s.id)
            && d.current == isCurrentScreen(tab.id, s.index)
            && d.previous == isCurrentScreen(tab.id, s.index + 1)
            && d.isNewTab == tab.isNewTab
  {
    var i, j := DescriptorOrigin(tabs, k, isCurrentScreen, route);
    tab, s := tabs[i], TabScreens(tabs[i])[j];
  }

  lemma {:induction false} DescribeCurrent(tab: Tab, isCurrentScreen: CurrentScreenQuery, route: RouteMatcher)
    ensures Describe(tab, TabScreens(tab)[|tab.backList|], isCurrentScreen, route)
         == Descriptor(route(tab.current.url), Key(tab.id, tab.index), (tab.id, tab.current.id),
                       isCurrentScreen(tab.id, tab.index), isCurrentScreen(tab.id, tab.index + 1), tab.isNewTab)
  {
  }

  /** The last entry of each tab's block is its current screen, indexed by
      the tab's own index; it comes right after the tab's back list. */
  lemma {:induction false} CurrentScreenEntry(tabs: seq<Tab>, i: nat, isCurrentScreen: CurrentScreenQuery, route: RouteMatcher)
    requires i < |tabs|
    ensures var k := ScreenCount(tabs[..i]) + |tabs[i].backList|;
            var tab := tabs[i];
            k < |Descriptors(tabs, isCurrentScreen, route)|
            && Descriptors(tabs, isCurrentScreen, route)[k]
               == Descriptor(route(tab.current.url), Key(tab.id, tab.index), (tab.id, tab.current.id),
                             isCurrentScreen(tab.id, tab.index), isCurrentScreen(tab.id, tab.index + 1), tab.isNewTab)
  {
    DescriptorAt(tabs, i, |tabs[i].backList|, isCurrentScreen, route);
    DescribeCurrent(tabs[i], isCurrentScreen, route);
  }

  /** The back-list entries of each tab keep their own index and order. */
  lemma {:induction false} BackListEntry(tabs: seq<Tab>, i: nat, j: nat, isCurrentScreen: CurrentScreenQuery, route: RouteMatcher)
    requires i < |tabs| && j < |tabs[i].backList|
    ensures var k := ScreenCount(tabs[..i]) + j;
            var tab := tabs[i];
            var s := tab.backList[j];
            k < |Descriptors(tabs, isCurrentScreen, route)|
            && Descriptors(tabs, isCurrentScreen, route)[k]
               == Descriptor(route(s.url), Key(tab.id, s.index), (tab.id, s.id),
                             isCurrentScreen(tab.id, s.index), isCurrentScreen(tab.id, s.index + 1), tab.isNewTab)
  {
    DescriptorAt(tabs, i, j, isCurrentScreen, route);
  }

  /** `hasNewTab` holds exactly when some descriptor carries the new-tab
      flag: every tab contributes at least one descriptor. */
  lemma {:induction false} NewTabIffSomeDescriptor(tabs: seq<Tab>, isCurrentScreen: CurrentScreenQuery, route: RouteMatcher)
    ensures var ds := Descriptors(tabs, isCurrentScreen, route);
            AnyNewTab(tabs) <==> exists k :: 0 <= k < |ds| && ds[k].isNewTab
  {
    var ds := Descriptors(tabs, isCurrentScreen, route);
    if AnyNewTab(tabs) {
      var i :| 0 <= i < |tabs| && tabs[i].isNewTab;
      CurrentScreenEntry(tabs, i, isCurrentScreen, route);
      var k := ScreenCount(tabs[..i]) + |tabs[i].backList|;
      assert ds[k].isNewTab;
    }
    if exists k :: 0 <= k < |ds| && ds[k].isNewTab {
      var k :| 0 <= k < |ds| && ds[k].isNewTab;
      var i, j := DescriptorOrigin(tabs, k, isCurrentScreen, route);
      assert tabs[i].isNewTab;
    }
  }

  /** When no descriptor is current the scan keeps its starting icon; in
      particular the plan's icon is then the default. */
  lemma {:induction false} IconWhenNoneCurrent(fallback: Icon, ds: seq<Descriptor>)
    requires forall k :: 0 <= k < |ds| ==> !ds[k].current
    ensures IconAfter(fallback, ds) == fallback
  {
    if ds != [] {
      IconWhenNoneCurrent(fallback, ds[..|ds| - 1]);
    }
  }

  /** The icon is that of the last current descriptor. */
  lemma {:induction false} IconIsLastCurrent(fallback: Icon, ds: seq<Descriptor>, k: nat)
    requires k < |ds| && ds[k].current
    requires forall m :: k < m < |ds| ==> !ds[m].current
    ensures IconAfter(fallback, ds) == ds[k].matched.icon
  {
    if k < |ds| - 1 {
      var init := ds[..|ds| - 1];
      assert init[k] == ds[k];
      IconIsLastCurrent(fallback, init, k);
    }
  }

  // ---------------------------------------------------------------------
  // Flags under a well-behaved navigation model
  // ---------------------------------------------------------------------

  /** `isCurrentScreen` holds for at most one (tab id, index) pair. */
  ghost predicate SingleCurrent(isCurrentScreen: CurrentScreenQuery) {
    forall t1: nat, i1: nat, t2: nat, i2: nat ::
      isCurrentScreen(t1, i1) && isCurrentScreen(t2, i2) ==> t1 == t2 && i1 == i2
  }

  /** No two screens of the snapshot share a tab id and an index. */
  ghost predicate DistinctPositions(tabs: seq<Tab>) {
    forall i1, j1, i2, j2 ::
      0 <= i1 < |tabs| && 0 <= j1 < |TabScreens(tabs[i1])| &&
      0 <= i2 < |tabs| && 0 <= j2 < |TabScreens(tabs[i2])| &&
      (i1 != i2 || j1 != j2) ==>
        tabs[i1].id != tabs[i2].id || TabScreens(tabs[i1])[j1].index != TabScreens(tabs[i2])[j2].index
  }

  /** The (tab id, index) position of the k-th descriptor, with the flags
      read off it. */
  lemma {:induction false} EntryPosition(tabs: seq<Tab>, k: nat, isCurrentScreen: CurrentScreenQuery, route: RouteMatcher)
    returns (tabId: nat, index: nat)
    requires k < |Descriptors(tabs, isCurrentScreen, route)|
    ensures var d := Descriptors(tabs, isCurrentScreen, route)[k];
            && d.key == Key(tabId, index)
            && d.current == isCurrentScreen(tabId, index)
            && d.previous == isCurrentScreen(tabId, index + 1)
  {
    var i, j := DescriptorOrigin(tabs, k, isCurrentScreen, route);
    tabId, index := tabs[i].id, TabScreens(tabs[i])[j].index;
  }

  /** Distinct entries of a snapshot with distinct positions have distinct keys. */
  lemma {:induction false} DistinctEntryKeys(tabs: seq<Tab>, k1: nat, k2: nat, isCurrentScreen: CurrentScreenQuery, route: RouteMatcher)
    requires DistinctPositions(tabs)
    requires k1 < |Descriptors(tabs, isCurrentScreen, route)| && k2 < |Descriptors(tabs, isCurrentScreen, route)|
    requires k1 != k2
    ensures Descriptors(tabs, isCurrentScreen, route)[k1].key != Descriptors(tabs, isCurrentScreen, route)[k2].key
  {
    var i1, j1 := DescriptorOrigin(tabs, k1, isCurrentScreen, route);
    var i2, j2 := DescriptorOrigin(tabs, k2, isCurrentScreen, route);
    assert i1 != i2 || j1 != j2;
    KeyInjective(tabs[i1].id, TabScreens(tabs[i1])[j1].index, tabs[i2].id, TabScreens(tabs[i2])[j2].index);
  }

  /** Distinct positions give distinct React keys across the whole plan. */
  lemma {:induction false} KeysDistinct(tabs: seq<Tab>, isCurrentScreen: CurrentScreenQuery, route: RouteMatcher)
    requires DistinctPositions(tabs)
    ensures var ds := Descriptors(tabs, isCurrentScreen, route);
            forall k1, k2 :: 0 <= k1 < |ds| && 0 <= k2 < |ds| && k1 != k2 ==> ds[k1].key != ds[k2].key
  {
    var ds := Descriptors(tabs, isCurrentScreen, route);
    forall k1, k2 | 0 <= k1 < |ds| && 0 <= k2 < |ds| && k1 != k2
      ensures ds[k1].key != ds[k2].key
    {
      DistinctEntryKeys(tabs, k1, k2, isCurrentScreen, route);
    }
  }

  /** When `isCurrentScreen` singles out one position, no descriptor is both
      current and previous. */
  lemma {:induction false} NeverCurrentAndPrevious(tabs: seq<Tab>, isCurrentScreen: CurrentScreenQuery, route: RouteMatcher)
    requires SingleCurrent(isCurrentScreen)
    ensures var ds := Descriptors(tabs, isCurrentScreen, route);
            forall k :: 0 <= k < |ds| ==> !(ds[k].current && ds[k].previous)
  {
    var ds := Descriptors(tabs, isCurrentScreen, route);
    forall k | 0 <= k < |ds|
      ensures !(ds[k].current && ds[k].previous)
    {
      var t, x := EntryPosition(tabs, k, isCurrentScreen, route);
    }
  }

  /** Two distinct entries are never both current, nor both previous. */
  lemma {:induction false} DistinctEntryFlags(tabs: seq<Tab>, k1: nat, k2: nat, isCurrentScreen: CurrentScreenQuery, route: RouteMatcher)
    requires SingleCurrent(isCurrentScreen) && DistinctPositions(tabs)
    requires k1 < |Descriptors(tabs, isCurrentScreen, route)| && k2 < |Descriptors(tabs, isCurrentScreen, route)|
    requires k1 != k2
    ensures var ds := Descriptors(tabs, isCurrentScreen, route);
            !(ds[k1].current && ds[k2].current) && !(ds[k1].previous && ds[k2].previous)
  {
    DistinctEntryKeys(tabs, k1, k2, isCurrentScreen, route);
    var t1, x1 := EntryPosition(tabs, k1, isCurrentScreen, route);
    var t2, x2 := EntryPosition(tabs, k2, isCurrentScreen, route);
    assert t1 != t2 || x1 != x2;
  }

  /** With one current position and distinct positions, at most one
      descriptor is current and at most one is previous. */
  lemma {:induction false} AtMostOneCurrent(tabs: seq<Tab>, isCurrentScreen: CurrentScreenQuery, route: RouteMatcher)
    requires SingleCurrent(isCurrentScreen) && DistinctPositions(tabs)
    ensures var ds := Descriptors(tabs, isCurrentScreen, route);
            forall k1, k2 :: 0 <= k1 < |ds| && 0 <= k2 < |ds| && ds[k1].current && ds[k2].current ==> k1 == k2
    ensures var ds := Descriptors(tabs, isCurrentScreen, route);
            forall k1, k2 :: 0 <= k1 < |ds| && 0 <= k2 < |ds| && ds[k1].previous && ds[k2].previous ==> k1 == k2
  {
    var ds := Descriptors(tabs, isCurrentScreen, route);
    forall k1, k2 | 0 <= k1 < |ds| && 0 <= k2 < |ds| && k1 != k2
      ensures !(ds[k1].current && ds[k2].current) && !(ds[k1].previous && ds[k2].previous)
    {
      DistinctEntryFlags(tabs, k1, k2, isCurrentScreen, route);
    }
  }

  /** When tab i's current screen is the one the model reports as current,
      every descriptor flagged previous is the screen one history step
      behind it in the same tab. */
  lemma {:induction false} PreviousIsBehindCurrent(tabs: seq<Tab>, i: nat, isCurrentScreen: CurrentScreenQuery, route: RouteMatcher)
    requires i < |tabs|
    requires SingleCurrent(isCurrentScreen)
    requires isCurrentScreen(tabs[i].id, tabs[i].index)
    ensures var ds := Descriptors(tabs, isCurrentScreen, route);
            forall k :: 0 <= k < |ds| && ds[k].previous ==>
              1 <= tabs[i].index && ds[k].key == Key(tabs[i].id, tabs[i].index - 1)
  {
    var ds := Descriptors(tabs, isCurrentScreen, route);
    forall k | 0 <= k < |ds| && ds[k].previous
      ensures 1 <= tabs[i].index && ds[k].key == Key(tabs[i].id, tabs[i].index - 1)
    {
      var t, x := EntryPosition(tabs, k, isCurrentScreen, route);
      assert t == tabs[i].id && x + 1 == tabs[i].index;
    }
  }

  /** When the model reports one current position at most, positions are
      distinct, and tab i's current screen is the one reported as current,
      it is the only current descriptor and the plan's icon is its icon. */
  lemma {:induction false} ActiveScreenDecidesIcon(tabs: seq<Tab>, i: nat, isCurrentScreen: CurrentScreenQuery, route: RouteMatcher)
    requires i < |tabs|
    requires SingleCurrent(isCurrentScreen) && DistinctPositions(tabs)
    requires isCurrentScreen(tabs[i].id, tabs[i].index)
    ensures var ds := Descriptors(tabs, isCurrentScreen, route);
            var k := ScreenCount(tabs[..i]) + |tabs[i].backList|;
            k < |ds| && ds[k].current
            && (forall m :: 0 <= m < |ds| && m != k ==> !ds[m].current)
            && LastCurrentIcon(ds) == route(tabs[i].current.url).icon
  {
    var ds := Descriptors(tabs, isCurrentScreen, route);
    var k := ScreenCount(tabs[..i]) + |tabs[i].backList|;
    CurrentScreenEntry(tabs, i, isCurrentScreen, route);
    AtMostOneCurrent(tabs, isCurrentScreen, route);
    IconIsLastCurrent(DefaultIcon, ds, k);
  }

  /** Two tabs: tab 1 (empty back list, its screen current) and tab 2 (new,
      one back-list screen, at history index 1). The plan has three
      descriptors; only tab 1's screen is current, the new-tab flag is
      raised, and the icon is that of tab 1's screen. */
  lemma {:induction false} TwoTabExample(a: Tab, b: Tab, route: RouteMatcher)
    requires a.id == 1 && a.backList == [] && a.index == 0 && !a.isNewTab
    requires b.id == 2 && |b.backList| == 1 && b.backList[0].index == 0 && b.index == 1 && b.isNewTab
    ensures var ds := Descriptors([a, b], (t: nat, i: nat) => t == 1 && i == 0, route);
            && |ds| == 3
            && ds[0].current && !ds[0].previous && ds[0].key == "t1-s0" && ds[0].navIdx == (1, a.current.id)
            && !ds[1].current && !ds[1].previous && ds[1].key == "t2-s0" && ds[1].navIdx == (2, b.backList[0].id)
            && !ds[2].current && !ds[2].previous && ds[2].key == "t2-s1" && ds[2].navIdx == (2, b.current.id)
            && AnyNewTab([a, b]) && ds[2].isNewTab && !ds[0].isNewTab
            && LastCurrentIcon(ds) == route(a.current.url).icon
  {
    var tabs := [a, b];
    var q := (t: nat, i: nat) => t == 1 && i == 0;
    var ds := Descriptors(tabs, q, route);
    assert tabs[..0] == [] && tabs[..1] == [a] && tabs[..2] == tabs;
    assert [a][..0] == [];
    assert ScreenCount(tabs[..1]) == 1;
    DescriptorsLength(tabs, q, route);
    CurrentScreenEntry(tabs, 0, q, route);
    BackListEntry(tabs, 1, 0, q, route);
    CurrentScreenEntry(tabs, 1, q, route);
    assert Format(0) == "0" && Format(1) == "1" && Format(2) == "2";
    assert tabs[1].isNewTab;
    IconIsLastCurrent(DefaultIcon, ds, 0);
  }
}
