/**
 * The tab strip and address bar of the browser mock-up: tabs are opened, closed, switched
 * and navigated, and one tab is active throughout.
 */
module Browser {
  import opened Wrappers
  import opened Text
  import LlmText

  datatype Tab = Tab(id: string, title: string, url: string, favicon: Option<string>, isActive: bool, isLoading: bool)

  /** An entry of `initialTabs`; an empty string stands for a field the caller left out. */
  datatype TabSeed = TabSeed(id: string, title: string, url: string, favicon: Option<string>)

  const DefaultUrl: string := "https://app.fieldnation.com/integrations/fieldservices"
  const DefaultMaxTabs: int := 10
  const BlankUrl: string := "about:blank"
  const NewTabTitle: string := "New Tab"
  const Http: string := "http://"
  const Https: string := "https://"
  const About: string := "about:"
  const SearchPrefix: string := Https + "www.google.com/search?q="

  /** `s || fallback` on strings: the empty string is falsy. */
  function Or(s: string, fallback: string): (r: string)
    ensures r != "" || fallback == ""
    ensures s != "" ==> r == s
  {
    if s != "" then s else fallback
  }

  // ---------------------------------------------------------------------------
  // Which tab is active
  // ---------------------------------------------------------------------------

  /** Tab `k` is active and no other tab is. */
  predicate ActiveAt(ts: seq<Tab>, k: int) {
    0 <= k < |ts| && ts[k].isActive && forall j :: 0 <= j < |ts| && j != k ==> !ts[j].isActive
  }

  predicate OneActive(ts: seq<Tab>) {
    exists k :: 0 <= k < |ts| && ActiveAt(ts, k)
  }

  predicate DistinctIds(ts: seq<Tab>) {
    forall i, j :: 0 <= i < j < |ts| ==> ts[i].id != ts[j].id
  }

  /** The tabs with every activity flag cleared: what stays when only activity is ignored. */
  function Deactivated(ts: seq<Tab>): (r: seq<Tab>)
    ensures |r| == |ts| && forall i :: 0 <= i < |ts| ==> r[i] == ts[i].(isActive := false)
  {
    seq(|ts|, i requires 0 <= i < |ts| => ts[i].(isActive := false))
  }

  /** `tabs.find((tab) => tab.isActive)` */
  function FindActive(ts: seq<Tab>): (r: Option<Tab>)
    ensures r.None? <==> forall j :: 0 <= j < |ts| ==> !ts[j].isActive
    ensures r.Some? ==> r.value.isActive && r.value in ts
  {
    if |ts| == 0 then None
    else if ts[0].isActive then Some(ts[0])
    else
      var r := FindActive(ts[1..]);
      assert forall j :: 1 <= j < |ts| ==> ts[j] == ts[1..][j - 1];
      r
  }

  /** When one tab is active, the search finds that tab. */
  lemma {:induction false} FindActiveAt(ts: seq<Tab>, k: int)
    requires ActiveAt(ts, k)
    ensures FindActive(ts) == Some(ts[k])
    decreases |ts|
  {
    if k > 0 {
      assert !ts[0].isActive;
      assert ActiveAt(ts[1..], k - 1);
      FindActiveAt(ts[1..], k - 1);
    }
  }

  // ---------------------------------------------------------------------------
  // Initial tabs
  // ---------------------------------------------------------------------------

  /** A seed as a tab: missing fields take their defaults, the first tab is the active one. */
  function SeedTab(seed: TabSeed, index: nat, initialUrl: string, now: string): Tab {
    Tab(Or(seed.id, now + LlmText.NatString(index)), Or(seed.title, NewTabTitle), Or(seed.url, initialUrl),
        seed.favicon, index == 0, false)
  }

  /**
   * The tabs the browser starts with: the caller's, or one "New Tab" with id "1" on the initial
   * URL; `now` is the clock reading that names tabs without an id.
   */
  function InitialTabs(seeds: seq<TabSeed>, initialUrl: string, now: string): (r: seq<Tab>)
    ensures |seeds| == 0 ==> r == [Tab("1", NewTabTitle, initialUrl, None, true, false)]
    ensures |seeds| > 0 ==> |r| == |seeds| && forall i :: 0 <= i < |seeds| ==> r[i] == SeedTab(seeds[i], i, initialUrl, now)
  {
    if |seeds| == 0 then [Tab("1", NewTabTitle, initialUrl, None, true, false)]
    else seq(|seeds|, i requires 0 <= i < |seeds| => SeedTab(seeds[i], i, initialUrl, now))
  }

  /**
   * The browser starts with its first tab active and no tab loading, each tab keeping the
   * caller's fields where given and the defaults elsewhere.
   */
  lemma InitialActivity(seeds: seq<TabSeed>, initialUrl: string, now: string)
    ensures var r := InitialTabs(seeds, initialUrl, now);
      && ActiveAt(r, 0)
      && (forall i :: 0 <= i < |r| ==> !r[i].isLoading && r[i].id != "" && r[i].title != "")
      && (forall i :: 0 <= i < |seeds| ==>
            && (seeds[i].id != "" ==> r[i].id == seeds[i].id)
            && (seeds[i].title != "" ==> r[i].title == seeds[i].title)
            && r[i].url == (if seeds[i].url != "" then seeds[i].url else initialUrl))
  {
    var r := InitialTabs(seeds, initialUrl, now);
    forall i | 0 <= i < |r| ensures r[i].id != "" {
      if |seeds| > 0 {
        var n := LlmText.NatString(i);
        assert |now + n| >= 1;
      }
    }
  }

  /**
   * The seeds name their tabs apart: the ids they give differ from one another and from every
   * id `now + index` the browser would generate. The component does not check this.
   */
  predicate SeedIdsApart(seeds: seq<TabSeed>, now: string) {
    && (forall i, j :: 0 <= i < j < |seeds| && seeds[i].id != "" ==> seeds[i].id != seeds[j].id)
    && (forall i, j :: 0 <= i < |seeds| && 0 <= j < |seeds| ==> seeds[i].id != now + LlmText.NatString(j))
  }

  /** Seeds that name their tabs apart give initial tabs with distinct ids. */
  lemma InitialIdsDistinct(seeds: seq<TabSeed>, initialUrl: string, now: string)
    requires SeedIdsApart(seeds, now)
    ensures DistinctIds(InitialTabs(seeds, initialUrl, now))
  {
    var r := InitialTabs(seeds, initialUrl, now);
    forall i, j | 0 <= i < j < |r| ensures r[i].id != r[j].id {
      if seeds[i].id == "" && seeds[j].id == "" {
        var ni, nj := LlmText.NatString(i), LlmText.NatString(j);
        if ni == nj {
          LlmText.NatStringInjective(i, j);
        } else {
          assert (now + ni)[|now|..] == ni && (now + nj)[|now|..] == nj;
        }
      }
    }
  }

  // ---------------------------------------------------------------------------
  // Opening a tab
  // ---------------------------------------------------------------------------

  /** The blank tab `createNewTab` opens, named by the clock reading `now`. */
  function BlankTab(now: string): Tab {
    Tab(now, NewTabTitle, BlankUrl, None, true, false)
  }

  /** `prev.map((tab) => ({ ...tab, isActive: false })).concat(newTab)` */
  function Opened(ts: seq<Tab>, now: string): seq<Tab> {
    Deactivated(ts) + [BlankTab(now)]
  }

  /**
   * A new tab is appended as the only active one, whatever was active before; the others
   * keep everything but their activity.
   */
  lemma OpenedActivity(ts: seq<Tab>, now: string)
    ensures var r := Opened(ts, now);
      && |r| == |ts| + 1
      && ActiveAt(r, |ts|)
      && r[|ts|].url == BlankUrl
      && Deactivated(r[..|ts|]) == Deactivated(ts)
  {
    var r := Opened(ts, now);
    assert r[..|ts|] == Deactivated(ts);
  }

  /** A new tab whose name no open tab has keeps the names distinct. */
  lemma OpenedDistinct(ts: seq<Tab>, now: string)
    requires DistinctIds(ts)
    requires forall j :: 0 <= j < |ts| ==> ts[j].id != now
    ensures DistinctIds(Opened(ts, now))
  {
    var r := Opened(ts, now);
    forall i, j | 0 <= i < j < |r| ensures r[i].id != r[j].id {
      assert r[i].id == ts[i].id;
    }
  }

  // ---------------------------------------------------------------------------
  // Closing a tab
  // ---------------------------------------------------------------------------

  /** `tabs.findIndex((tab) => tab.id === id)` */
  function IndexOfId(ts: seq<Tab>, id: string): (r: int)
    ensures -1 <= r < |ts|
    ensures r == -1 <==> forall j :: 0 <= j < |ts| ==> ts[j].id != id
    ensures r >= 0 ==> ts[r].id == id && forall j :: 0 <= j < r ==> ts[j].id != id
  {
    if |ts| == 0 then -1
    else if ts[0].id == id then 0
    else
      var r := IndexOfId(ts[1..], id);
      assert forall j :: 1 <= j < |ts| ==> ts[j] == ts[1..][j - 1];
      if r < 0 then -1 else r + 1
  }

  /** `tabs.filter((tab) => tab.id !== id)` */
  function Without(ts: seq<Tab>, id: string): (r: seq<Tab>)
    ensures |r| <= |ts|
  {
    if |ts| == 0 then []
    else if ts[0].id == id then Without(ts[1..], id)
    else [ts[0]] + Without(ts[1..], id)
  }

  /** The filter keeps exactly the tabs with other names. */
  lemma {:induction false} WithoutMembers(ts: seq<Tab>, id: string)
    ensures forall t :: t in Without(ts, id) <==> t in ts && t.id != id
    decreases |ts|
  {
    if |ts| > 0 {
      WithoutMembers(ts[1..], id);
      assert ts == [ts[0]] + ts[1..];
    }
  }

  lemma {:induction false} WithoutAbsent(ts: seq<Tab>, id: string)
    requires forall j :: 0 <= j < |ts| ==> ts[j].id != id
    ensures Without(ts, id) == ts
    decreases |ts|
  {
    if |ts| > 0 {
      assert ts[0].id != id;
      WithoutAbsent(ts[1..], id);
      assert [ts[0]] + ts[1..] == ts;
    }
  }

  /** `ts` without its `i`-th tab. */
  function Removed(ts: seq<Tab>, i: int): (r: seq<Tab>)
    requires 0 <= i < |ts|
    ensures |r| == |ts| - 1
    ensures forall j :: 0 <= j < i ==> r[j] == ts[j]
    ensures forall j :: i <= j < |r| ==> r[j] == ts[j + 1]
  {
    ts[..i] + ts[i + 1..]
  }

  /** With distinct names, filtering a name out removes exactly the tab at its index. */
  lemma {:induction false} WithoutDistinct(ts: seq<Tab>, id: string, i: int)
    requires DistinctIds(ts) && 0 <= i < |ts| && ts[i].id == id
    ensures Without(ts, id) == Removed(ts, i)
    decreases |ts|
  {
    var tail := ts[1..];
    if i == 0 {
      forall j | 0 <= j < |tail| ensures tail[j].id != id {
        assert tail[j] == ts[j + 1];
      }
      WithoutAbsent(tail, id);
      assert Removed(ts, 0) == tail;
    } else {
      assert ts[0].id != id;
      assert DistinctIds(tail) by {
        forall p, q | 0 <= p < q < |tail| ensures tail[p].id != tail[q].id {
          assert tail[p] == ts[p + 1] && tail[q] == ts[q + 1];
        }
      }
      assert tail[i - 1] == ts[i];
      WithoutDistinct(tail, id, i - 1);
      assert [ts[0]] + Removed(tail, i - 1) == Removed(ts, i);
    }
  }

  function Min(a: int, b: int): int {
    if a <= b then a else b
  }

  /**
   * `closeTab`'s new tab list for a tab that is open: the tab filtered out and, when it
   * was the active one, the tab now at its place (or the new last one) made active.
   */
  function Closed(ts: seq<Tab>, id: string): seq<Tab>
    requires IndexOfId(ts, id) >= 0
  {
    var i := IndexOfId(ts, id);
    var rest := Without(ts, id);
    if ts[i].isActive && |rest| > 0 then
      var k := Min(i, |rest| - 1);
      rest[k := rest[k].(isActive := true)]
    else rest
  }

  /** Where the addresses go after closing: the newly activated tab's URL, if one was activated. */
  function ClosedFocus(ts: seq<Tab>, id: string): (r: Option<string>)
    requires IndexOfId(ts, id) >= 0
    ensures r.Some? ==> ts[IndexOfId(ts, id)].isActive
  {
    var i := IndexOfId(ts, id);
    var rest := Without(ts, id);
    if ts[i].isActive && |rest| > 0 then Some(rest[Min(i, |rest| - 1)].url) else None
  }

  /**
   * With distinct names, closing removes exactly that tab; the rest keep their order and
   * everything but their activity.
   */
  lemma CloseRemoves(ts: seq<Tab>, id: string)
    requires DistinctIds(ts) && IndexOfId(ts, id) >= 0
    ensures var i := IndexOfId(ts, id);
      Deactivated(Closed(ts, id)) == Deactivated(ts[..i] + ts[i + 1..])
  {
    var i := IndexOfId(ts, id);
    WithoutDistinct(ts, id, i);
    var c := Closed(ts, id);
    assert Deactivated(c) == Deactivated(Removed(ts, i));
  }

  /**
   * With one tab active and distinct names, one tab is still active after closing another:
   * the same tab when an inactive one is closed, and the tab that took the closed one's
   * place (or the new last one) when the active one is closed; that tab's URL is the one
   * the address bar shows.
   */
  lemma CloseActivity(ts: seq<Tab>, id: string, a: int)
    requires DistinctIds(ts) && IndexOfId(ts, id) >= 0 && |ts| > 1
    requires ActiveAt(ts, a)
    ensures var i := IndexOfId(ts, id);
      var c := Closed(ts, id);
      && |c| == |ts| - 1
      && (a == i ==> ActiveAt(c, Min(i, |ts| - 2)) && ClosedFocus(ts, id) == Some(c[Min(i, |ts| - 2)].url))
      && (a < i ==> ActiveAt(c, a) && ClosedFocus(ts, id).None?)
      && (a > i ==> ActiveAt(c, a - 1) && ClosedFocus(ts, id).None?)
  {
    var i := IndexOfId(ts, id);
    WithoutDistinct(ts, id, i);
    var rest := Removed(ts, i);
    var c := Closed(ts, id);
    if a == i {
      var k := Min(i, |rest| - 1);
      assert c == rest[k := rest[k].(isActive := true)];
      forall j | 0 <= j < |c| && j != k ensures !c[j].isActive {
        assert c[j] == rest[j];
        if j >= i { assert rest[j] == ts[j + 1]; }
      }
    } else if a < i {
      assert c == rest;
      forall j | 0 <= j < |c| && j != a ensures !c[j].isActive {
        if j >= i { assert c[j] == ts[j + 1]; }
      }
    } else {
      assert c == rest;
      assert c[a - 1] == ts[a];
      forall j | 0 <= j < |c| && j != a - 1 ensures !c[j].isActive {
        if j >= i { assert c[j] == ts[j + 1]; }
      }
    }
  }

  /** Closing keeps the names distinct. */
  lemma CloseDistinct(ts: seq<Tab>, id: string)
    requires DistinctIds(ts) && IndexOfId(ts, id) >= 0
    ensures DistinctIds(Closed(ts, id))
  {
    var i := IndexOfId(ts, id);
    WithoutDistinct(ts, id, i);
    var c := Closed(ts, id);
    forall p, q | 0 <= p < q < |c| ensures c[p].id != c[q].id {
      var rest := Removed(ts, i);
      assert c[p].id == rest[p].id && c[q].id == rest[q].id;
      var p' := if p < i then p else p + 1;
      var q' := if q < i then q else q + 1;
      assert rest[p] == ts[p'] && rest[q] == ts[q'];
    }
  }

  // ---------------------------------------------------------------------------
  // Switching tabs
  // ---------------------------------------------------------------------------

  /** `tabs.map((tab) => ({ ...tab, isActive: tab.id === id }))` */
  function Switched(ts: seq<Tab>, id: string): (r: seq<Tab>)
    ensures |r| == |ts| && forall i :: 0 <= i < |ts| ==> r[i] == ts[i].(isActive := ts[i].id == id)
  {
    seq(|ts|, i requires 0 <= i < |ts| => ts[i].(isActive := ts[i].id == id))
  }

  /**
   * Switching to the tab with a name makes exactly that tab active when the names are
   * distinct, leaves every other field alone, and with an unknown name leaves no tab active.
   */
  lemma SwitchActivity(ts: seq<Tab>, id: string)
    ensures Deactivated(Switched(ts, id)) == Deactivated(ts)
    ensures DistinctIds(ts) && IndexOfId(ts, id) >= 0 ==> ActiveAt(Switched(ts, id), IndexOfId(ts, id))
    ensures IndexOfId(ts, id) < 0 ==> FindActive(Switched(ts, id)).None?
    ensures DistinctIds(ts) ==> DistinctIds(Switched(ts, id))
  {
    var r := Switched(ts, id);
    assert Deactivated(r) == Deactivated(ts);
    assert forall i :: 0 <= i < |r| ==> r[i].id == ts[i].id;
  }

  // ---------------------------------------------------------------------------
  // Navigating
  // ---------------------------------------------------------------------------

  /** The address typed into the bar as a URL: kept when it has a scheme, else a web search. */
  function Target(input: string, encode: string -> string): string {
    if StartsWith(input, Http) || StartsWith(input, Https) || StartsWith(input, About) then input
    else SearchPrefix + encode(input)
  }

  lemma SearchPrefixSecure(e: string)
    ensures StartsWith(SearchPrefix + e, Https)
    ensures !StartsWith(SearchPrefix + e, Http) && !StartsWith(SearchPrefix + e, About)
  {
    assert (SearchPrefix + e)[..|Https|] == Https;
    assert (SearchPrefix + e)[4] == 's';
    assert (SearchPrefix + e)[0] == 'h';
  }

  /**
   * Every target has one of the accepted schemes, so entering it again leaves it alone; it is
   * secure exactly when the input was neither an `http://` nor an `about:` address.
   */
  lemma TargetProperties(input: string, encode: string -> string)
    ensures var t := Target(input, encode);
      && (StartsWith(t, Http) || StartsWith(t, Https) || StartsWith(t, About))
      && Target(t, encode) == t
      && (StartsWith(t, Https) <==> !StartsWith(input, Http) && !StartsWith(input, About))
  {
    if !(StartsWith(input, Http) || StartsWith(input, Https) || StartsWith(input, About)) {
      SearchPrefixSecure(encode(input));
    } else if StartsWith(input, Https) {
      assert input[4] == 's';
      assert input[0] == 'h';
    } else if StartsWith(input, Http) {
      assert input[4] == ':';
    } else {
      assert input[0] == 'a';
    }
  }

  /** The active tabs take the new URL, title and loading flag; the others are kept as they are. */
  function Navigated(ts: seq<Tab>, url: string, title: string, loading: bool): (r: seq<Tab>)
    ensures |r| == |ts|
  {
    seq(|ts|, i requires 0 <= i < |ts| =>
      if ts[i].isActive then ts[i].(url := url, title := title, isLoading := loading) else ts[i])
  }

  /**
   * Navigating changes only the active tab, and only its URL, title and loading flag; the
   * same tab stays active.
   */
  lemma NavigateOnlyActive(ts: seq<Tab>, url: string, title: string, loading: bool, k: int)
    requires ActiveAt(ts, k)
    ensures var r := Navigated(ts, url, title, loading);
      && ActiveAt(r, k)
      && r[..k] == ts[..k] && r[k + 1..] == ts[k + 1..]
      && r[k] == ts[k].(url := url, title := title, isLoading := loading)
  {
    var r := Navigated(ts, url, title, loading);
    assert r[..k] == ts[..k];
    assert r[k + 1..] == ts[k + 1..];
  }

  // ---------------------------------------------------------------------------
  // The browser's state
  // ---------------------------------------------------------------------------

  class Browser {
    var tabs: seq<Tab>
    var currentUrl: string
    var inputUrl: string
    var isSecure: bool
    var canGoBack: bool
    var canGoForward: bool
    var isBookmarked: bool
    const maxTabs: int
    const simulateLoading: bool

    /** One tab active and every tab named differently: what the tab operations keep. */
    predicate Valid()
      reads this
    {
      OneActive(tabs) && DistinctIds(tabs)
    }

    /** `now` is the clock reading (`Date.now().toString()`) that names tabs without an id. */
    constructor (seeds: seq<TabSeed>, initialUrl: string, now: string, maxTabs: int, simulateLoading: bool)
      ensures tabs == InitialTabs(seeds, initialUrl, now) && ActiveAt(tabs, 0)
      ensures currentUrl == initialUrl && inputUrl == initialUrl && isSecure
      ensures !canGoBack && !canGoForward && !isBookmarked
      ensures this.maxTabs == maxTabs && this.simulateLoading == simulateLoading
      ensures |seeds| <= 1 ==> Valid()
      ensures SeedIdsApart(seeds, now) ==> Valid()
    {
      tabs := InitialTabs(seeds, initialUrl, now);
      currentUrl := initialUrl;
      inputUrl := initialUrl;
      isSecure := true;
      canGoBack := false;
      canGoForward := false;
      isBookmarked := false;
      this.maxTabs := maxTabs;
      this.simulateLoading := simulateLoading;
      InitialActivity(seeds, initialUrl, now);
      if SeedIdsApart(seeds, now) {
        InitialIdsDistinct(seeds, initialUrl, now);
      }
    }

    /**
     * `createNewTab`: nothing at the tab limit; otherwise a blank tab named `now` is
     * appended as the active one, and returned (what `onTabCreate` receives).
     */
    method CreateNewTab(now: string) returns (created: Option<Tab>)
      modifies this
      ensures |old(tabs)| >= maxTabs ==> created.None? && unchanged(this)
      ensures |old(tabs)| < maxTabs ==>
        && created == Some(BlankTab(now))
        && tabs == Opened(old(tabs), now) && ActiveAt(tabs, |old(tabs)|)
        && currentUrl == BlankUrl && inputUrl == ""
        && isSecure == old(isSecure) && canGoBack == old(canGoBack) && canGoForward == old(canGoForward)
        && isBookmarked == old(isBookmarked)
      ensures old(Valid()) && (forall j :: 0 <= j < |old(tabs)| ==> old(tabs)[j].id != now) ==> Valid()
    {
      if |tabs| >= maxTabs {
        return None;
      }
      OpenedActivity(tabs, now);
      if DistinctIds(tabs) && forall j :: 0 <= j < |tabs| ==> tabs[j].id != now {
        OpenedDistinct(tabs, now);
      }
      tabs := Opened(tabs, now);
      currentUrl := BlankUrl;
      inputUrl := "";
      created := Some(BlankTab(now));
    }

    /**
     * `closeTab`: nothing with a single tab; a name no tab has makes the lookup fail
     * (`thrown`) with nothing changed; otherwise the tab goes, and when it was active the
     * addresses follow the tab activated in its place.
     */
    method CloseTab(id: string) returns (thrown: bool)
      modifies this
      ensures thrown <==> |old(tabs)| != 1 && IndexOfId(old(tabs), id) < 0
      ensures |old(tabs)| == 1 || thrown ==> unchanged(this)
      ensures |old(tabs)| != 1 && !thrown ==>
        && tabs == Closed(old(tabs), id)
        && (ClosedFocus(old(tabs), id).Some? ==>
              currentUrl == ClosedFocus(old(tabs), id).value && inputUrl == currentUrl)
        && (ClosedFocus(old(tabs), id).None? ==> currentUrl == old(currentUrl) && inputUrl == old(inputUrl))
        && isSecure == old(isSecure) && canGoBack == old(canGoBack) && canGoForward == old(canGoForward)
        && isBookmarked == old(isBookmarked)
      ensures old(Valid()) ==> Valid()
    {
      if |tabs| == 1 {
        return false;
      }
      var i := IndexOfId(tabs, id);
      if i < 0 {
        return true;
      }
      if Valid() {
        var a :| ActiveAt(tabs, a);
        CloseActivity(tabs, id, a);
        CloseDistinct(tabs, id);
      }
      var focus := ClosedFocus(tabs, id);
      tabs := Closed(tabs, id);
      if focus.Some? {
        currentUrl := focus.value;
        inputUrl := focus.value;
      }
      thrown := false;
    }

    /**
     * `switchTab`: the tab with that name becomes the only active one, and the addresses
     * follow the active tab if there is one.
     */
    method SwitchTab(id: string)
      modifies this
      ensures tabs == Switched(old(tabs), id)
      ensures FindActive(tabs).Some? ==>
        currentUrl == FindActive(tabs).value.url && inputUrl == currentUrl
      ensures FindActive(tabs).None? ==> currentUrl == old(currentUrl) && inputUrl == old(inputUrl)
      ensures isSecure == old(isSecure) && canGoBack == old(canGoBack) && canGoForward == old(canGoForward)
      ensures isBookmarked == old(isBookmarked)
      ensures old(DistinctIds(tabs)) && IndexOfId(old(tabs), id) >= 0 ==>
        Valid() && currentUrl == old(tabs)[IndexOfId(old(tabs), id)].url
    {
      var next := Switched(tabs, id);
      SwitchActivity(tabs, id);
      var found := FindActive(next);
      if DistinctIds(tabs) && IndexOfId(tabs, id) >= 0 {
        FindActiveAt(next, IndexOfId(tabs, id));
      }
      if found.Some? {
        currentUrl := found.value.url;
        inputUrl := found.value.url;
      }
      tabs := next;
    }

    /**
     * `navigateToUrl`: the input becomes a URL, shown in the bar and loaded into the active
     * tab only; `hostname` stands for `new URL(url).hostname` and `encode` for
     * `encodeURIComponent`. Returns what `onNavigate` receives: the URL and the active tab's
     * name (empty when no tab is active).
     */
    method NavigateToUrl(input: string, encode: string -> string, hostname: string -> string)
      returns (url: string, tabId: string)
      modifies this
      ensures url == Target(input, encode)
      ensures currentUrl == url && inputUrl == url
      ensures isSecure <==> StartsWith(url, Https)
      ensures tabs == Navigated(old(tabs), url, Or(hostname(url), NewTabTitle), simulateLoading)
      ensures tabId == (if FindActive(old(tabs)).Some? then FindActive(old(tabs)).value.id else "")
      ensures canGoBack == old(canGoBack) && canGoForward == old(canGoForward) && isBookmarked == old(isBookmarked)
      ensures old(Valid()) ==> Valid()
    {
      url := Target(input, encode);
      currentUrl := url;
      inputUrl := url;
      isSecure := StartsWith(url, Https);
      var active := FindActive(tabs);
      tabId := if active.Some? then active.value.id else "";
      if Valid() {
        var k :| ActiveAt(tabs, k);
        NavigateOnlyActive(tabs, url, Or(hostname(url), NewTabTitle), simulateLoading, k);
        var r := Navigated(tabs, url, Or(hostname(url), NewTabTitle), simulateLoading);
        assert forall i :: 0 <= i < |r| ==> r[i].id == tabs[i].id;
      }
      tabs := Navigated(tabs, url, Or(hostname(url), NewTabTitle), simulateLoading);
    }

    /** `goBack`: only the forward button is enabled. */
    method GoBack()
      modifies this
      ensures canGoForward
      ensures tabs == old(tabs) && currentUrl == old(currentUrl) && inputUrl == old(inputUrl)
      ensures isSecure == old(isSecure) && canGoBack == old(canGoBack) && isBookmarked == old(isBookmarked)
    {
      canGoForward := true;
    }

    /** `goForward`: only the back button is enabled. */
    method GoForward()
      modifies this
      ensures canGoBack
      ensures tabs == old(tabs) && currentUrl == old(currentUrl) && inputUrl == old(inputUrl)
      ensures isSecure == old(isSecure) && canGoForward == old(canGoForward) && isBookmarked == old(isBookmarked)
    {
      canGoBack := true;
    }

    /** `toggleBookmark`: the bookmark flag flips; returns what `onBookmarkToggle` receives. */
    method ToggleBookmark() returns (url: string, bookmarked: bool)
      modifies this
      ensures isBookmarked == !old(isBookmarked) && bookmarked == isBookmarked && url == currentUrl
      ensures tabs == old(tabs) && currentUrl == old(currentUrl) && inputUrl == old(inputUrl)
      ensures isSecure == old(isSecure) && canGoBack == old(canGoBack) && canGoForward == old(canGoForward)
    {
      isBookmarked := !isBookmarked;
      url := currentUrl;
      bookmarked := isBookmarked;
    }
  }

  /** With one tab active, `activeTab` is that tab. */
  lemma ActiveTabFound(ts: seq<Tab>)
    requires OneActive(ts)
    ensures FindActive(ts).Some? && exists k :: 0 <= k < |ts| && FindActive(ts) == Some(ts[k]) && ActiveAt(ts, k)
  {
    var k :| ActiveAt(ts, k);
    FindActiveAt(ts, k);
  }
}
