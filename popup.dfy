/** The popup's logic: the `HH:MM:SS` countdown text, the tab list sorted by window and
    position and grouped under one heading per window, the 40-character title cut, the
    checks of the start button, the choice of the timer shown when the popup opens, and
    the countdown state (`endTime`, the interval, the displayed text). Rendering and the
    Chrome calls are not modelled; their inputs are parameters. */
module Popup {
  import opened Js
  import Background

  // ---------------------------------------------------------------------------
  // formatTime
  // ---------------------------------------------------------------------------

  /** One field of the clock: values below 10 get a leading "0". */
  function Pad(v: nat): (s: string)
    ensures v < 100 ==> |s| == 2
    ensures ':' !in s
  {
    var digits := NatToString(v);
    assert forall i :: 0 <= i < |digits| ==> IsDigit(digits[i]);
    if v < 10 then "0" + digits else digits
  }

  datatype Clock = Clock(hours: nat, minutes: nat, secs: nat)

  /** Hours, minutes and seconds of a number of seconds. */
  function ClockFields(seconds: nat): (c: Clock)
    ensures c.hours * 3600 + c.minutes * 60 + c.secs == seconds
    ensures c.minutes < 60 && c.secs < 60
  {
    var rest := seconds % 3600;
    assert seconds == (seconds / 3600) * 3600 + rest;
    assert rest == (rest / 60) * 60 + rest % 60;
    Clock(seconds / 3600, rest / 60, rest % 60)
  }

  /** `formatTime`: the three fields joined with ":". */
  function FormatTime(seconds: nat): string {
    var c := ClockFields(seconds);
    Pad(c.hours) + ":" + Pad(c.minutes) + ":" + Pad(c.secs)
  }

  /** Below 100 hours the text is exactly `HH:MM:SS`. */
  lemma FormatTimeLength(seconds: nat)
    requires seconds < 360000
    ensures |FormatTime(seconds)| == 8
  {
    var c := ClockFields(seconds);
    assert c.hours < 100;
  }

  /** The seconds named by the pieces of `H:M:S` text. */
  function ReadFields(parts: seq<string>): Option<nat> {
    if |parts| != 3 then None
    else
      var h, m, s := ReadDecimal(parts[0]), ReadDecimal(parts[1]), ReadDecimal(parts[2]);
      if h.Some? && m.Some? && s.Some? then Some(h.value * 3600 + m.value * 60 + s.value) else None
  }

  /** Reads `H:M:S` text back into seconds. */
  function ReadClock(text: string): Option<nat> {
    ReadFields(Split(text, ':'))
  }

  /** A padded field reads back as its value. */
  lemma ParsePad(v: nat)
    ensures ReadDecimal(Pad(v)) == Some(v)
  {
    var s := Pad(v);
    var digits := NatToString(v);
    ReadDecimalOfNat(v);
    if v < 10 {
      assert s == "0" + digits && |digits| == 1;
      assert s[..1] == "0" && "0"[..0] == [];
      assert DigitsValue("0", 10) == 0;
      assert AllDigits(s) by {
        assert IsDigit(s[0]) && s[1] == digits[0];
      }
    }
  }

  /** Three fields without a ":" split back into those three fields. */
  lemma SplitClockText(h: string, m: string, s: string)
    requires ':' !in h && ':' !in m && ':' !in s
    ensures Split(h + ":" + m + ":" + s, ':') == [h, m, s]
  {
    assert h + ":" + m + ":" + s == h + [':'] + (m + [':'] + s);
    SplitJoin(h, ':', m + [':'] + s);
    SplitJoin(m, ':', s);
    SplitWithoutSeparator(h, ':');
    SplitWithoutSeparator(m, ':');
    SplitWithoutSeparator(s, ':');
  }

  /** Clock text is read field by field. */
  lemma ReadClockText(h: string, m: string, s: string)
    requires ':' !in h && ':' !in m && ':' !in s
    ensures ReadClock(h + ":" + m + ":" + s) == ReadFields([h, m, s])
  {
    SplitClockText(h, m, s);
  }

  /** The countdown text names exactly the number of seconds it was made from. */
  lemma FormatTimeRoundTrip(seconds: nat)
    ensures ReadClock(FormatTime(seconds)) == Some(seconds)
  {
    var c := ClockFields(seconds);
    ParsePad(c.hours);
    ParsePad(c.minutes);
    ParsePad(c.secs);
    ReadClockOfFields(Pad(c.hours), Pad(c.minutes), Pad(c.secs), c);
  }

  /** Clock text whose fields read as the clock's fields reads as its total. */
  lemma ReadClockOfFields(h: string, m: string, s: string, c: Clock)
    requires ':' !in h && ':' !in m && ':' !in s
    requires ReadDecimal(h) == Some(c.hours)
    requires ReadDecimal(m) == Some(c.minutes)
    requires ReadDecimal(s) == Some(c.secs)
    ensures ReadClock(h + ":" + m + ":" + s) == Some(c.hours * 3600 + c.minutes * 60 + c.secs)
  {
    ReadClockText(h, m, s);
    ReadFieldsTotal(h, m, s, c);
  }

  /** Three fields that each read as a number read as the clock's total. */
  lemma ReadFieldsTotal(h: string, m: string, s: string, c: Clock)
    requires ReadDecimal(h) == Some(c.hours)
    requires ReadDecimal(m) == Some(c.minutes)
    requires ReadDecimal(s) == Some(c.secs)
    ensures ReadFields([h, m, s]) == Some(c.hours * 3600 + c.minutes * 60 + c.secs)
  {
  }

  // ---------------------------------------------------------------------------
  // Sorting the tab list
  // ---------------------------------------------------------------------------

  /** A tab as `chrome.tabs.query` lists it (the fields the popup reads). */
  datatype Tab = Tab(id: int, windowId: int, index: int, title: string)

  /** `a` comes strictly before `b`: an earlier window, or the same window and an earlier position. */
  predicate TabBefore(a: Tab, b: Tab) {
    a.windowId < b.windowId || (a.windowId == b.windowId && a.index < b.index)
  }

  /** The sort comparator: the window difference, or within a window the position difference. */
  function CompareTabs(a: Tab, b: Tab): (r: int)
    ensures r < 0 <==> TabBefore(a, b)
    ensures r > 0 <==> TabBefore(b, a)
    ensures r == 0 <==> a.windowId == b.windowId && a.index == b.index
  {
    if a.windowId != b.windowId then a.windowId - b.windowId else a.index - b.index
  }

  /** No tab comes before one listed ahead of it. */
  predicate Sorted(tabs: seq<Tab>) {
    forall i, j :: 0 <= i < j < |tabs| ==> !TabBefore(tabs[j], tabs[i])
  }

  /** Putting in front a tab that no tab of a sorted list comes before keeps it sorted. */
  lemma SortedCons(x: Tab, s: seq<Tab>)
    requires Sorted(s)
    requires forall y :: y in s ==> !TabBefore(y, x)
    ensures Sorted([x] + s)
  {
    var r := [x] + s;
    forall i, j | 0 <= i < j < |r| ensures !TabBefore(r[j], r[i]) {
      assert r[j] == s[j - 1];
      if i > 0 {
        assert r[i] == s[i - 1];
      }
    }
  }

  /** Places `t` ahead of the first tab it does not compare after; `t` was listed before
      all of `sorted`, so among equal tabs it stays first. */
  function Insert(t: Tab, sorted: seq<Tab>): (r: seq<Tab>)
    requires Sorted(sorted)
    ensures multiset(r) == multiset(sorted) + multiset{t}
    ensures Sorted(r)
  {
    if sorted == [] || CompareTabs(t, sorted[0]) <= 0 then
      NothingBefore(t, sorted);
      SortedCons(t, sorted);
      [t] + sorted
    else
      TailFacts(sorted);
      var rest := Insert(t, sorted[1..]);
      HeadBeforeRest(t, sorted, rest);
      SortedCons(sorted[0], rest);
      [sorted[0]] + rest
  }

  /** A tab that does not compare after the head of a sorted list comes after none of it. */
  lemma NothingBefore(t: Tab, sorted: seq<Tab>)
    requires Sorted(sorted)
    requires sorted == [] || CompareTabs(t, sorted[0]) <= 0
    ensures forall y :: y in sorted ==> !TabBefore(y, t)
  {
    forall y | y in sorted ensures !TabBefore(y, t) {
      var k :| 0 <= k < |sorted| && sorted[k] == y;
      assert k == 0 || !TabBefore(sorted[k], sorted[0]);
    }
  }

  /** The head of a sorted list comes after none of the rest with `t` inserted. */
  lemma HeadBeforeRest(t: Tab, sorted: seq<Tab>, rest: seq<Tab>)
    requires Sorted(sorted) && sorted != [] && TabBefore(sorted[0], t)
    requires multiset(rest) == multiset(sorted[1..]) + multiset{t}
    ensures forall y :: y in rest ==> !TabBefore(y, sorted[0])
    ensures multiset([sorted[0]] + rest) == multiset(sorted) + multiset{t}
  {
    forall y | y in rest ensures !TabBefore(y, sorted[0]) {
      assert y in multiset(rest);
      if y != t {
        assert y in multiset(sorted[1..]);
        var k :| 0 <= k < |sorted[1..]| && sorted[1..][k] == y;
        assert sorted[k + 1] == y;
      }
    }
    assert sorted == [sorted[0]] + sorted[1..];
  }

  /** `tabs.sort(compare)`: the tabs reordered by window, then by position. */
  function SortTabs(tabs: seq<Tab>): (r: seq<Tab>)
    ensures multiset(r) == multiset(tabs)
    ensures Sorted(r)
  {
    if tabs == [] then []
    else
      assert tabs == [tabs[0]] + tabs[1..];
      Insert(tabs[0], SortTabs(tabs[1..]))
  }

  /** No two tabs share a window and a position, as for the tabs of one browser. */
  predicate DistinctPlaces(tabs: seq<Tab>) {
    forall i, j :: 0 <= i < j < |tabs| ==> CompareTabs(tabs[i], tabs[j]) != 0
  }

  /** When window and position tell the tabs apart there is only one sorted order, so
      the result does not depend on which sorting algorithm the browser runs. */
  lemma {:induction false} SortedPermutationUnique(a: seq<Tab>, b: seq<Tab>)
    requires multiset(a) == multiset(b)
    requires Sorted(a) && Sorted(b) && DistinctPlaces(a)
    ensures a == b
  {
    assert |a| == |multiset(a)| == |multiset(b)| == |b|;
    if a != [] {
      SortedHeadsEqual(a, b);
      TailFacts(a);
      TailFacts(b);
      SortedPermutationUnique(a[1..], b[1..]);
      forall i | 0 <= i < |a| ensures a[i] == b[i] {
        if i > 0 {
          assert a[i] == a[1..][i - 1] && b[i] == b[1..][i - 1];
        }
      }
    }
  }

  /** What the tail of a non-empty list keeps of its head's list. */
  lemma TailFacts(s: seq<Tab>)
    requires s != []
    ensures multiset(s[1..]) == multiset(s) - multiset{s[0]}
    ensures Sorted(s) ==> Sorted(s[1..])
    ensures DistinctPlaces(s) ==> DistinctPlaces(s[1..])
  {
    assert s == [s[0]] + s[1..];
  }

  /** Two sorted orders of the same tabs, told apart by window and position, start alike. */
  lemma SortedHeadsEqual(a: seq<Tab>, b: seq<Tab>)
    requires multiset(a) == multiset(b) && a != [] && |b| == |a|
    requires Sorted(a) && Sorted(b) && DistinctPlaces(a)
    ensures a[0] == b[0]
  {
    assert a[0] in multiset(b) && b[0] in multiset(a);
    var i :| 0 <= i < |a| && a[i] == b[0];
    var j :| 0 <= j < |b| && b[j] == a[0];
    assert !TabBefore(a[i], a[0]);
    assert !TabBefore(b[j], b[0]);
  }

  // ---------------------------------------------------------------------------
  // Grouping the sorted list by window
  // ---------------------------------------------------------------------------

  const MaxTitleLength := 40

  /** Titles over 40 characters are cut to their first 40 and marked with "...". */
  function TruncateTitle(title: string): (r: string)
    ensures |r| <= MaxTitleLength + 3
    ensures |title| <= MaxTitleLength ==> r == title
    ensures |title| > MaxTitleLength ==>
              |r| == MaxTitleLength + 3 && r[..MaxTitleLength] == title[..MaxTitleLength] && r[MaxTitleLength..] == "..."
  {
    if |title| > MaxTitleLength then title[..MaxTitleLength] + "..." else title
  }

  /** An `<option>` of the tab list: the tab id and the shown title. */
  datatype TabOption = TabOption(value: int, text: string)

  /** An `<optgroup>` holding the options of one window. */
  datatype WindowGroup = WindowGroup(windowId: int, heading: string, options: seq<TabOption>)

  /** An option together with the window of the group it sits in. */
  datatype Placement = Placement(windowId: int, option: TabOption)

  function OptionFor(tab: Tab): (r: TabOption)
    ensures r.value == tab.id && |r.text| <= 43
  {
    TabOption(tab.id, TruncateTitle(tab.title))
  }

  function WindowLabel(windowId: int): string {
    "Window " + IntToString(windowId)
  }

  /** The window id can be read back from a heading after its "Window " lead. */
  lemma WindowLabelRoundTrip(windowId: int)
    ensures |WindowLabel(windowId)| > 7 && WindowLabel(windowId)[..7] == "Window "
    ensures ParseInt(WindowLabel(windowId)[7..], 0) == Num(windowId)
  {
    var digits := IntToString(windowId);
    assert WindowLabel(windowId)[7..] == digits;
    ParseIntToString(windowId, 0);
  }

  /** Where each tab should end up: its option under its own window, in list order. */
  function Placements(tabs: seq<Tab>): (r: seq<Placement>)
    ensures |r| == |tabs|
  {
    if tabs == [] then []
    else Placements(tabs[..|tabs| - 1]) + [Placement(Last(tabs).windowId, OptionFor(Last(tabs)))]
  }

  function Tagged(windowId: int, options: seq<TabOption>): (r: seq<Placement>)
    ensures |r| == |options|
  {
    if options == [] then []
    else Tagged(windowId, options[..|options| - 1]) + [Placement(windowId, Last(options))]
  }

  /** Where the groups put each option, group after group. */
  function Ungroup(groups: seq<WindowGroup>): seq<Placement> {
    if groups == [] then []
    else Ungroup(groups[..|groups| - 1]) + Tagged(Last(groups).windowId, Last(groups).options)
  }

  /** The number of groups the loop opens: one for the first tab and one more at every
      tab whose window differs from the tab before it. */
  function GroupCount(tabs: seq<Tab>): nat {
    if tabs == [] then 0
    else GroupCount(tabs[..|tabs| - 1])
         + (if |tabs| == 1 || tabs[|tabs| - 1].windowId != tabs[|tabs| - 2].windowId then 1 else 0)
  }

  function WindowIds(tabs: seq<Tab>): set<int> {
    set t | t in tabs :: t.windowId
  }

  lemma PlacementsStep(tabs: seq<Tab>, i: nat)
    requires i < |tabs|
    ensures Placements(tabs[..i + 1]) == Placements(tabs[..i]) + [Placement(tabs[i].windowId, OptionFor(tabs[i]))]
    ensures GroupCount(tabs[..i + 1]) == GroupCount(tabs[..i])
              + (if i == 0 || tabs[i].windowId != tabs[i - 1].windowId then 1 else 0)
  {
    assert tabs[..i + 1][..i] == tabs[..i];
  }

  lemma UngroupSnoc(front: seq<WindowGroup>, g: WindowGroup)
    ensures Ungroup(front + [g]) == Ungroup(front) + Tagged(g.windowId, g.options)
  {
    assert (front + [g])[..|front|] == front;
  }

  lemma TaggedSnoc(w: int, options: seq<TabOption>, option: TabOption)
    ensures Tagged(w, options + [option]) == Tagged(w, options) + [Placement(w, option)]
  {
    assert (options + [option])[..|options|] == options;
  }

  /** `optgroup.appendChild(option)` on the last group: the option is placed after
      everything placed so far, and every group keeps its window and heading. */
  function AppendOption(groups: seq<WindowGroup>, option: TabOption): (r: seq<WindowGroup>)
    requires groups != []
    ensures |r| == |groups|
    ensures forall g :: 0 <= g < |r| - 1 ==> r[g] == groups[g]
    ensures Last(r) == Last(groups).(options := Last(groups).options + [option])
    ensures Ungroup(r) == Ungroup(groups) + [Placement(Last(groups).windowId, option)]
  {
    var last := Last(groups);
    var front := groups[..|groups| - 1];
    var filled := last.(options := last.options + [option]);
    UngroupSnoc(front, filled);
    UngroupSnoc(front, last);
    assert front + [last] == groups;
    TaggedSnoc(last.windowId, last.options, option);
    front + [filled]
  }

  /** Every group has at least one option and the heading of its window. */
  predicate FilledGroups(groups: seq<WindowGroup>) {
    forall g :: 0 <= g < |groups| ==>
      groups[g].options != [] && groups[g].heading == WindowLabel(groups[g].windowId)
  }

  /** Neighbouring groups belong to different windows. */
  predicate WindowChanges(groups: seq<WindowGroup>) {
    forall g :: 0 <= g < |groups| - 1 ==> groups[g].windowId != groups[g + 1].windowId
  }

  /** Appending to the last group keeps the groups filled and their windows. */
  lemma AppendKeepsShape(groups: seq<WindowGroup>, option: TabOption)
    requires groups != [] && Last(groups).heading == WindowLabel(Last(groups).windowId)
    requires FilledGroups(groups[..|groups| - 1]) && WindowChanges(groups)
    ensures FilledGroups(AppendOption(groups, option)) && WindowChanges(AppendOption(groups, option))
  {
    var r := AppendOption(groups, option);
    forall g | 0 <= g < |r| - 1 ensures r[g] == groups[..|groups| - 1][g] {
    }
  }

  /** Opening a group for a new window keeps the windows changing from group to group. */
  lemma OpenKeepsShape(groups: seq<WindowGroup>, newGroup: WindowGroup)
    requires FilledGroups(groups) && WindowChanges(groups)
    requires groups != [] ==> Last(groups).windowId != newGroup.windowId
    ensures FilledGroups((groups + [newGroup])[..|groups|]) && WindowChanges(groups + [newGroup])
  {
    var r := groups + [newGroup];
    assert r[..|groups|] == groups;
    forall g | 0 <= g < |r| - 1 ensures r[g].windowId != r[g + 1].windowId {
      if g + 1 < |groups| {
        assert r[g] == groups[g] && r[g + 1] == groups[g + 1];
      } else {
        assert r[g] == Last(groups) && r[g + 1] == newGroup;
      }
    }
  }

  /** What the loop of `populateTabSelection` has built after the first `i` tabs. */
  predicate GroupedUpTo(tabs: seq<Tab>, i: nat, groups: seq<WindowGroup>, current: Option<int>)
    requires i <= |tabs|
  {
    && Ungroup(groups) == Placements(tabs[..i])
    && |groups| == GroupCount(tabs[..i])
    && (i == 0 ==> groups == [] && current == None)
    && (i > 0 ==> groups != [] && current == Some(tabs[i - 1].windowId)
                  && Last(groups).windowId == tabs[i - 1].windowId)
    && FilledGroups(groups) && WindowChanges(groups)
  }

  /** A tab of another window opens a group and then fills it. */
  lemma OpenStep(tabs: seq<Tab>, i: nat, groups: seq<WindowGroup>, current: Option<int>)
    requires i < |tabs| && GroupedUpTo(tabs, i, groups, current)
    requires current != Some(tabs[i].windowId)
    ensures var w := tabs[i].windowId;
            GroupedUpTo(tabs, i + 1, AppendOption(groups + [WindowGroup(w, WindowLabel(w), [])], OptionFor(tabs[i])), Some(w))
  {
    var w := tabs[i].windowId;
    var newGroup := WindowGroup(w, WindowLabel(w), []);
    var withNew := groups + [newGroup];
    PlacementsStep(tabs, i);
    UngroupSnoc(groups, newGroup);
    assert Ungroup(withNew) == Ungroup(groups);
    OpenKeepsShape(groups, newGroup);
    assert Last(withNew) == newGroup;
    AppendKeepsShape(withNew, OptionFor(tabs[i]));
    var r := AppendOption(withNew, OptionFor(tabs[i]));
    assert Ungroup(r) == Placements(tabs[..i + 1]);
    assert |r| == GroupCount(tabs[..i + 1]);
  }

  /** A tab of the current window goes into the current group. */
  lemma FillStep(tabs: seq<Tab>, i: nat, groups: seq<WindowGroup>, current: Option<int>)
    requires i < |tabs| && GroupedUpTo(tabs, i, groups, current)
    requires current == Some(tabs[i].windowId)
    ensures GroupedUpTo(tabs, i + 1, AppendOption(groups, OptionFor(tabs[i])), current)
  {
    PlacementsStep(tabs, i);
    assert FilledGroups(groups[..|groups| - 1]);
    AppendKeepsShape(groups, OptionFor(tabs[i]));
  }

  /** The `forEach` of `populateTabSelection`: a new group starts whenever the window
      differs from the previous tab's, and each tab's option goes into the current group. */
  method GroupByWindow(tabs: seq<Tab>) returns (groups: seq<WindowGroup>)
    ensures Ungroup(groups) == Placements(tabs)
    ensures |groups| == GroupCount(tabs)
    ensures FilledGroups(groups) && WindowChanges(groups)
  {
    groups := [];
    var currentWindowId: Option<int> := None;
    for i := 0 to |tabs|
      invariant GroupedUpTo(tabs, i, groups, currentWindowId)
    {
      var tab := tabs[i];
      if currentWindowId != Some(tab.windowId) {
        OpenStep(tabs, i, groups, currentWindowId);
        currentWindowId := Some(tab.windowId);
        var newGroup := WindowGroup(tab.windowId, WindowLabel(tab.windowId), []);
        groups := groups + [newGroup];
      } else {
        FillStep(tabs, i, groups, currentWindowId);
      }
      groups := AppendOption(groups, OptionFor(tab));
    }
    assert tabs[..|tabs|] == tabs;
  }

  /** In a list sorted by window, the groups are exactly the distinct windows. */
  lemma {:induction false} SortedGroupCount(tabs: seq<Tab>)
    requires Sorted(tabs)
    ensures GroupCount(tabs) == |WindowIds(tabs)|
  {
    if tabs != [] {
      var n := |tabs|;
      var front := tabs[..n - 1];
      var w := tabs[n - 1].windowId;
      WindowIdsSnoc(tabs);
      SortedGroupCount(front);
      assert GroupCount(tabs) == GroupCount(front) + (if n == 1 || w != tabs[n - 2].windowId then 1 else 0);
      if n == 1 {
        assert WindowIds(front) == {};
      } else if w == tabs[n - 2].windowId {
        assert front[n - 2] == tabs[n - 2];
        assert w in WindowIds(front);
      } else {
        LastWindowIsNew(tabs);
      }
    }
  }

  lemma WindowIdsSnoc(tabs: seq<Tab>)
    requires tabs != []
    ensures Sorted(tabs) ==> Sorted(tabs[..|tabs| - 1])
    ensures WindowIds(tabs) == WindowIds(tabs[..|tabs| - 1]) + {Last(tabs).windowId}
  {
    assert tabs == tabs[..|tabs| - 1] + [Last(tabs)];
  }

  /** In a sorted list, a tab whose window differs from the tab before opens a window
      no earlier tab has. */
  lemma LastWindowIsNew(tabs: seq<Tab>)
    requires Sorted(tabs) && |tabs| > 1
    requires tabs[|tabs| - 1].windowId != tabs[|tabs| - 2].windowId
    ensures tabs[|tabs| - 1].windowId !in WindowIds(tabs[..|tabs| - 1])
  {
    var n := |tabs|;
    forall k | 0 <= k < n - 1 ensures tabs[k].windowId < tabs[n - 1].windowId {
      assert !TabBefore(tabs[n - 1], tabs[k]);
      assert !TabBefore(tabs[n - 1], tabs[n - 2]);
      if k < n - 2 {
        assert !TabBefore(tabs[n - 2], tabs[k]);
      }
    }
  }

  lemma SameWindows(a: seq<Tab>, b: seq<Tab>)
    requires multiset(a) == multiset(b)
    ensures WindowIds(a) == WindowIds(b)
  {
    forall w | w in WindowIds(a) ensures w in WindowIds(b) {
      var t :| t in a && t.windowId == w;
      assert t in multiset(b);
    }
    forall w | w in WindowIds(b) ensures w in WindowIds(a) {
      var t :| t in b && t.windowId == w;
      assert t in multiset(a);
    }
  }

  /** `populateTabSelection` after the query: sort, then group; one group per window. */
  method PopulateTabSelection(tabs: seq<Tab>) returns (groups: seq<WindowGroup>)
    ensures Ungroup(groups) == Placements(SortTabs(tabs))
    ensures |groups| == |WindowIds(tabs)|
    ensures forall g :: 0 <= g < |groups| - 1 ==> groups[g].windowId < groups[g + 1].windowId
    ensures FilledGroups(groups)
  {
    var sorted := SortTabs(tabs);
    groups := GroupByWindow(sorted);
    SortedGroupCount(sorted);
    SameWindows(sorted, tabs);
    GroupsFollowOrder(sorted, groups);
  }

  /** The window of the group holding each tab's option. */
  lemma {:induction false} PlacementsWindows(tabs: seq<Tab>, k: nat)
    requires k < |tabs|
    ensures |Placements(tabs)| == |tabs| && Placements(tabs)[k].windowId == tabs[k].windowId
  {
    if k < |tabs| - 1 {
      PlacementsWindows(tabs[..|tabs| - 1], k);
    } else if |tabs| > 1 {
      PlacementsWindows(tabs[..|tabs| - 1], 0);
    }
  }

  lemma {:induction false} TaggedWindows(w: int, options: seq<TabOption>)
    ensures |Tagged(w, options)| == |options|
    ensures forall k :: 0 <= k < |options| ==> Tagged(w, options)[k].windowId == w
  {
    if options != [] {
      TaggedWindows(w, options[..|options| - 1]);
    }
  }

  /** Each group's first option sits at some position of the ungrouped list, later groups further on. */
  lemma {:induction false} UngroupFirsts(groups: seq<WindowGroup>, g: nat)
    requires g < |groups|
    requires forall h :: 0 <= h < |groups| ==> groups[h].options != []
    ensures |Ungroup(groups[..g])| < |Ungroup(groups[..g + 1])| <= |Ungroup(groups)|
    ensures Ungroup(groups)[|Ungroup(groups[..g])|].windowId == groups[g].windowId
    ensures forall k :: |Ungroup(groups[..g])| <= k < |Ungroup(groups[..g + 1])| ==>
              Ungroup(groups)[k].windowId == groups[g].windowId
    decreases |groups|
  {
    var n := |groups|;
    var front := groups[..n - 1];
    var last := Last(groups);
    assert groups == front + [last];
    UngroupSnoc(front, last);
    TaggedWindows(last.windowId, last.options);
    if g < n - 1 {
      assert front[..g] == groups[..g] && front[..g + 1] == groups[..g + 1];
      UngroupFirsts(front, g);
    } else {
      assert groups[..g] == front && groups[..g + 1] == groups;
    }
  }

  /** Grouping a sorted list keeps the window order: group windows increase. */
  lemma {:induction false} GroupsFollowOrder(sorted: seq<Tab>, groups: seq<WindowGroup>)
    requires Sorted(sorted)
    requires Ungroup(groups) == Placements(sorted)
    requires forall g :: 0 <= g < |groups| ==> groups[g].options != []
    requires forall g :: 0 <= g < |groups| - 1 ==> groups[g].windowId != groups[g + 1].windowId
    ensures forall g :: 0 <= g < |groups| - 1 ==> groups[g].windowId < groups[g + 1].windowId
  {
    forall g | 0 <= g < |groups| - 1 ensures groups[g].windowId < groups[g + 1].windowId {
      NeighbourGroupsOrdered(sorted, groups, g);
    }
  }

  /** The first tab of a group lies ahead of the first tab of the next group. */
  lemma {:induction false} NeighbourGroupsOrdered(sorted: seq<Tab>, groups: seq<WindowGroup>, g: nat)
    requires Sorted(sorted)
    requires Ungroup(groups) == Placements(sorted)
    requires forall h :: 0 <= h < |groups| ==> groups[h].options != []
    requires g + 1 < |groups|
    ensures groups[g].windowId <= groups[g + 1].windowId
  {
    UngroupFirsts(groups, g);
    UngroupFirsts(groups, g + 1);
    var p := |Ungroup(groups[..g])|;
    var q := |Ungroup(groups[..g + 1])|;
    PlacementsWindows(sorted, q);
    PlacementsWindows(sorted, p);
    assert !TabBefore(sorted[q], sorted[p]);
  }

  // ---------------------------------------------------------------------------
  // The start button
  // ---------------------------------------------------------------------------

  const InvalidDurationStatus := "Please enter a valid number of seconds."
  const NoActiveTabStatus := "No active tab found."
  const CurrentTab := "current"

  /** What a click on the start button does: show a status message, or send a
      `startTimer` message for a tab id (NaN when the selection does not parse). */
  datatype StartClick = Rejected(status: string) | SendStart(tabId: JsNumber, duration: int)

  /** The start click handler: the duration input is read with `parseInt(_, 10)` and must be
      a positive number; then the tab is the active tab of the window when "current" is
      selected, or the selected option's value read with `parseInt`. */
  function OnStartClick(durationInput: string, selected: string, activeTabIds: seq<int>): (r: StartClick)
    ensures r.SendStart? ==> r.duration > 0 && ParseInt(durationInput, 10) == Num(r.duration)
    ensures (ParseInt(durationInput, 10).NaN? || ParseInt(durationInput, 10).value <= 0)
            ==> r == Rejected(InvalidDurationStatus)
    ensures r.SendStart? && selected == CurrentTab ==> activeTabIds != [] && r.tabId == Num(activeTabIds[0])
    ensures r.SendStart? && selected != CurrentTab ==> r.tabId == ParseInt(selected, 0)
    ensures r.Rejected? ==> r.status == InvalidDurationStatus
                            || (r.status == NoActiveTabStatus && selected == CurrentTab && activeTabIds == [])
    ensures (ParseInt(durationInput, 10).Num? && ParseInt(durationInput, 10).value > 0
             && (selected != CurrentTab || activeTabIds != [])) ==> r.SendStart?
    ensures (ParseInt(durationInput, 10).Num? && ParseInt(durationInput, 10).value > 0
             && selected == CurrentTab && activeTabIds == []) ==> r == Rejected(NoActiveTabStatus)
  {
    match ParseInt(durationInput, 10)
    case NaN => Rejected(InvalidDurationStatus)
    case Num(duration) =>
      if duration <= 0 then Rejected(InvalidDurationStatus)
      else if selected == CurrentTab then
        if activeTabIds == [] then Rejected(NoActiveTabStatus) else SendStart(Num(activeTabIds[0]), duration)
      else SendStart(ParseInt(selected, 0), duration)
  }

  /** Choosing a listed tab (whose option value is its id as text) starts that tab's timer. */
  lemma StartListedTab(tab: Tab, duration: nat, activeTabIds: seq<int>)
    requires duration > 0
    ensures OnStartClick(IntToString(duration), IntToString(OptionFor(tab).value), activeTabIds)
            == SendStart(Num(tab.id), duration)
  {
    ParseIntToString(duration, 10);
    ParseIntToString(tab.id, 0);
    assert IntToString(tab.id) != CurrentTab by {
      var s := IntToString(tab.id);
      if tab.id >= 0 { assert IsDigit(s[0]); } else { assert s[0] == '-'; }
    }
  }

  // ---------------------------------------------------------------------------
  // The timer shown when the popup opens
  // ---------------------------------------------------------------------------

  lemma HasElement(keys: set<int>)
    requires keys != {}
    ensures exists x :: x in keys
  {
    if forall x :: x !in keys {
      assert false;
    }
  }

  /** The least key of a non-empty set of tab ids. */
  ghost function MinKey(keys: set<int>): (k: int)
    requires keys != {}
    ensures k in keys && forall j :: j in keys ==> k <= j
    decreases keys
  {
    HasElement(keys);
    var x :| x in keys;
    if keys == {x} then x
    else
      var m := MinKey(keys - {x});
      assert forall j :: j in keys ==> j == x || j in keys - {x};
      if x < m then x else m
  }

  /** The tab and seconds the popup starts counting down from. */
  datatype OpenedTimer = OpenedTimer(targetTabId: JsNumber, remainingTime: nat)

  /** On opening, the popup lists the timers and shows the first key of the map.
      `Object.keys` lists integer keys in increasing order, so that is the smallest tab id;
      the id is read back from its key text with `parseInt`. */
  ghost function ActiveTimerOnOpen(timers: map<int, Background.TimerRecord>, now: int): (r: Option<OpenedTimer>)
    requires forall k :: k in timers ==> 0 <= k < 0xFFFF_FFFF
    ensures r.None? <==> timers == map[]
    ensures r.Some? ==> exists k :: k in timers && r.value.targetTabId == Num(k) && (forall j :: j in timers ==> k <= j)
                          && r.value.remainingTime == Background.RemainingSeconds(timers[k].endTime, now)
  {
    if timers == map[] then None
    else
      assert timers.Keys != {};
      var key := MinKey(timers.Keys);
      ParseIntToString(key, 0);
      Some(OpenedTimer(ParseInt(IntToString(key), 0), Background.RemainingSeconds(timers[key].endTime, now)))
  }

  // ---------------------------------------------------------------------------
  // The countdown
  // ---------------------------------------------------------------------------

  const CompletedStatus := "Timer completed. Tab will close soon."
  const ActiveStatus := "Timer active"

  /** `Math.ceil((endTime - now) / 1000)` as the display computes it: not clamped at 0. */
  function TimeLeft(endTime: int, now: int): (r: int)
    ensures (r - 1) * 1000 < endTime - now <= r * 1000
  {
    CeilDiv1000(endTime - now)
  }

  lemma TimeLeftOfWholeSeconds(now: int, seconds: int)
    ensures TimeLeft(now + seconds * 1000, now) == seconds
  {
  }

  /** The popup's module-level countdown state and the parts of the page it writes. */
  class Countdown {
    var endTime: int
    var running: bool   // an interval calling UpdateTimerDisplay is set
    var display: string // the timer display's text
    var status: string  // the status line's text

    constructor ()
      ensures !running && display == "" && status == ""
    {
      endTime := 0;
      running := false;
      display := "";
      status := "";
    }

    /** `updateTimerDisplay`: once no time is left the interval stops and the status says
        so; otherwise the display shows the time left. */
    method UpdateTimerDisplay(now: int)
      modifies this
      ensures endTime == old(endTime)
      ensures TimeLeft(endTime, now) <= 0 ==>
                !running && status == CompletedStatus && display == old(display)
      ensures TimeLeft(endTime, now) > 0 ==>
                display == FormatTime(TimeLeft(endTime, now)) && running == old(running) && status == old(status)
    {
      var timeLeft := TimeLeft(endTime, now);
      if timeLeft <= 0 {
        running := false;
        status := CompletedStatus;
        return;
      }
      display := FormatTime(timeLeft);
    }

    /** `showActiveTimer`: the end is set `remainingTime` seconds from now, the display is
        updated once, and then a new interval is set, even when no time was left. */
    method ShowActiveTimer(remainingTime: int, now: int)
      modifies this
      ensures endTime == now + remainingTime * 1000
      ensures running
      ensures remainingTime > 0 ==> display == FormatTime(remainingTime) && status == ActiveStatus
      ensures remainingTime <= 0 ==> display == old(display) && status == CompletedStatus
    {
      status := ActiveStatus;
      endTime := now + remainingTime * 1000;
      TimeLeftOfWholeSeconds(now, remainingTime);
      UpdateTimerDisplay(now);
      running := true;
    }

    /** `hideTimerUI`: the interval stops and the status line is emptied. */
    method HideTimerUI()
      modifies this
      ensures !running && status == "" && endTime == old(endTime) && display == old(display)
    {
      running := false;
      status := "";
    }
  }
}
