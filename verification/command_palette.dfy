/**
 * The command palette: keyboard shortcuts, breadcrumb truncation, the section of a URL,
 * the search results sorted, grouped and ordered by section, the quick commands, and
 * the palette's own state as the keyboard moves the selection and picks an item.
 */
module CommandPalette {
  import opened Wrappers
  import opened Text
  import opened Sorting

  // ---------------------------------------------------------------------------
  // Shortcuts
  // ---------------------------------------------------------------------------

  /** The modifier key shown in shortcuts. */
  datatype Modifier = Cmd | Ctrl

  /**
   * `useModifierKey`: "Ctrl" when the user agent mentions Windows, "⌘" otherwise and when
   * there is no window to ask (`None`).
   */
  function ModifierFor(userAgent: Option<string>): (m: Modifier)
    ensures m == Ctrl <==> userAgent.Some? && Contains(userAgent.value, "Windows")
  {
    if userAgent.Some? && Contains(userAgent.value, "Windows") then Ctrl else Cmd
  }

  /** `formatShortcut`: "Ctrl K" with a space, "⌘K" without. */
  function FormatShortcut(m: Modifier, key: string): string {
    if m == Ctrl then "Ctrl " + key else "⌘" + key
  }

  /** Reads a shortcut label back into its modifier and key. */
  function ParseShortcut(s: string): Option<(Modifier, string)> {
    if StartsWith(s, "Ctrl ") then Some((Ctrl, s[5..]))
    else if StartsWith(s, "⌘") then Some((Cmd, s[1..]))
    else None
  }

  /** A shortcut label names its modifier and key unambiguously. */
  lemma ShortcutRoundTrip(m: Modifier, key: string)
    ensures ParseShortcut(FormatShortcut(m, key)) == Some((m, key))
  {
    var s := FormatShortcut(m, key);
    if m == Ctrl {
      assert s[..5] == "Ctrl " && s[5..] == key;
    } else {
      assert s[0] == '⌘' && s[1..] == key;
      assert !StartsWith(s, "Ctrl ");
    }
  }

  lemma ShortcutInjective(m1: Modifier, k1: string, m2: Modifier, k2: string)
    ensures FormatShortcut(m1, k1) == FormatShortcut(m2, k2) ==> m1 == m2 && k1 == k2
  {
    ShortcutRoundTrip(m1, k1);
    ShortcutRoundTrip(m2, k2);
  }

  // ---------------------------------------------------------------------------
  // Breadcrumbs
  // ---------------------------------------------------------------------------

  /** `xs.slice(start)`: a negative start counts from the end; both ends are clamped. */
  function SliceFrom<T>(xs: seq<T>, start: int): (r: seq<T>)
    ensures 0 <= start <= |xs| ==> r == xs[start..]
    ensures -|xs| <= start < 0 ==> r == xs[|xs| + start..]
  {
    if start < 0 then xs[(if |xs| + start < 0 then 0 else |xs| + start)..]
    else xs[(if start > |xs| then |xs| else start)..]
  }

  /**
   * The breadcrumbs shown for a result: all of them when they fit in `maxItems`,
   * otherwise the first, an ellipsis and `breadcrumbs.slice(-(maxItems - 2))`.
   */
  function DisplayBreadcrumbs(bs: seq<string>, maxItems: nat): (r: seq<string>)
    ensures |bs| <= maxItems ==> r == bs
    ensures |bs| > maxItems >= 3 ==>
      |r| == maxItems && r[0] == bs[0] && r[1] == "..." && r[2..] == bs[|bs| - (maxItems - 2)..]
    ensures |bs| > maxItems == 2 ==> r == [bs[0], "..."] + bs
  {
    if |bs| <= maxItems then bs
    else [bs[0], "..."] + SliceFrom(bs, -(maxItems - 2))
  }

  /**
   * The breadcrumb trail the result list shows: it passes `maxItems` 3, so a trail of more than
   * three becomes the first breadcrumb, an ellipsis and the last one.
   */
  lemma ResultBreadcrumbs(bs: seq<string>)
    ensures |DisplayBreadcrumbs(bs, 3)| <= 3
    ensures |bs| > 3 ==> DisplayBreadcrumbs(bs, 3) == [bs[0], "...", bs[|bs| - 1]]
  {
    if |bs| > 3 {
      var r := DisplayBreadcrumbs(bs, 3);
      assert r[2..] == bs[|bs| - 1..];
      assert r == [r[0], r[1]] + r[2..];
    }
  }

  /** With the parameter's default of four, a trail is shown with four items at most. */
  lemma DefaultBreadcrumbs(bs: seq<string>)
    ensures |DisplayBreadcrumbs(bs, 4)| <= 4
    ensures |bs| > 4 ==> DisplayBreadcrumbs(bs, 4) == [bs[0], "...", bs[|bs| - 2], bs[|bs| - 1]]
  {
    if |bs| > 4 {
      var r := DisplayBreadcrumbs(bs, 4);
      assert r[2..] == bs[|bs| - 2..];
      assert r == [r[0], r[1]] + r[2..];
    }
  }

  // ---------------------------------------------------------------------------
  // Sections
  // ---------------------------------------------------------------------------

  /** The icons of the sections. */
  datatype Icon = Rocket | Plug | CodeXml | Webhook | BookOpen | FileText

  datatype SectionInfo = SectionInfo(section: string, icon: Icon)

  /** A string cannot start with two prefixes that differ at a position both have. */
  lemma PrefixClash(s: string, p: string, q: string, i: nat)
    requires i < |p| && i < |q| && p[i] != q[i]
    ensures StartsWith(s, p) ==> !StartsWith(s, q)
  {
    if StartsWith(s, p) && |q| <= |s| {
      assert s[..|q|][i] == s[i] == p[i];
    }
  }

  lemma PrefixExtends(s: string, p: string, q: string)
    requires StartsWith(q, p) && StartsWith(s, q)
    ensures StartsWith(s, p)
  {
    assert s[..|p|] == q[..|p|];
  }

  /** `getSectionFromUrl`: the first rule whose prefix the URL has decides. */
  function SectionFromUrl(url: string): (r: SectionInfo)
    ensures StartsWith(url, "/api-reference") ==> r == SectionInfo("REST API", CodeXml)
    ensures r.section == "Other" <==> !StartsWith(url, "/docs") && !StartsWith(url, "/api-reference")
    ensures r.section == "Documentation" <==>
      StartsWith(url, "/docs") && !StartsWith(url, "/docs/getting-started") && !StartsWith(url, "/docs/connectors")
      && !StartsWith(url, "/docs/rest-api") && !StartsWith(url, "/docs/webhooks") && !StartsWith(url, "/docs/resources")
    ensures r.section in SectionOrder
  {
    var r :=
      if StartsWith(url, "/docs/getting-started") then SectionInfo("Getting Started", Rocket)
      else if StartsWith(url, "/docs/connectors") then SectionInfo("Connectors", Plug)
      else if StartsWith(url, "/docs/rest-api") || StartsWith(url, "/api-reference") then SectionInfo("REST API", CodeXml)
      else if StartsWith(url, "/docs/webhooks") then SectionInfo("Webhooks", Webhook)
      else if StartsWith(url, "/docs/resources") then SectionInfo("Resources", BookOpen)
      else if StartsWith(url, "/docs") then SectionInfo("Documentation", FileText)
      else SectionInfo("Other", FileText);
    SectionFromUrlFacts(url);
    r
  }

  lemma SectionFromUrlFacts(url: string)
    ensures StartsWith(url, "/api-reference") ==> !StartsWith(url, "/docs")
    ensures (StartsWith(url, "/docs/getting-started") || StartsWith(url, "/docs/connectors")
             || StartsWith(url, "/docs/rest-api") || StartsWith(url, "/docs/webhooks")
             || StartsWith(url, "/docs/resources")) ==> StartsWith(url, "/docs")
  {
    PrefixClash(url, "/api-reference", "/docs", 1);
    if StartsWith(url, "/docs/getting-started") { PrefixExtends(url, "/docs", "/docs/getting-started"); }
    if StartsWith(url, "/docs/connectors") { PrefixExtends(url, "/docs", "/docs/connectors"); }
    if StartsWith(url, "/docs/rest-api") { PrefixExtends(url, "/docs", "/docs/rest-api"); }
    if StartsWith(url, "/docs/webhooks") { PrefixExtends(url, "/docs", "/docs/webhooks"); }
    if StartsWith(url, "/docs/resources") { PrefixExtends(url, "/docs", "/docs/resources"); }
  }

  /** The order the result groups are shown in. */
  const SectionOrder: seq<string> :=
    ["Getting Started", "Connectors", "REST API", "Webhooks", "Resources", "Documentation", "Other"]

  // ---------------------------------------------------------------------------
  // Search results
  // ---------------------------------------------------------------------------

  datatype ResultType = PageResult | HeadingResult | TextResult

  /**
   * One hit of the static search; `content` is `None` when the hit's content is not a
   * plain string.
   */
  datatype RawResult = RawResult(
    id: string, url: string, kind: ResultType, content: Option<string>, breadcrumbs: Option<seq<string>>)

  /** What the search hook holds: nothing yet, the "empty" marker, or a list of hits. */
  datatype QueryData = NoData | EmptyMarker | Hits(items: seq<RawResult>)

  datatype SearchResult = SearchResult(
    id: string, title: string, description: Option<string>, url: string, kind: ResultType,
    breadcrumbs: Option<seq<string>>, section: string)

  /** The hit's content when it is a string, else its last breadcrumb, else "". */
  function RawTitle(item: RawResult): string {
    if item.content.Some? then item.content.value
    else if item.breadcrumbs.Some? && |item.breadcrumbs.value| > 0 then item.breadcrumbs.value[|item.breadcrumbs.value| - 1]
    else ""
  }

  /** A hit as the palette shows it. */
  function ToResult(item: RawResult): (r: SearchResult)
    ensures r.id == item.id && r.url == item.url && r.kind == item.kind
    ensures r.title == (if RawTitle(item) != "" then RawTitle(item) else item.url)
    ensures r.description.Some? <==> item.kind == TextResult && item.content.Some?
    ensures r.breadcrumbs.Some? ==> |r.breadcrumbs.value| > 0 && Some(r.breadcrumbs.value) == item.breadcrumbs
    ensures r.section == SectionFromUrl(item.url).section
  {
    var title := RawTitle(item);
    SearchResult(
      item.id,
      if title != "" then title else item.url,
      if item.kind == TextResult && item.content.Some? then item.content else None,
      item.url,
      item.kind,
      if item.breadcrumbs.Some? && |item.breadcrumbs.value| > 0 then item.breadcrumbs else None,
      SectionFromUrl(item.url).section)
  }

  /** `searchResults`: none while the search is blank or the hook holds no hits. */
  function SearchResults(search: string, data: QueryData): (r: Option<seq<SearchResult>>)
    ensures r.None? <==> Trim(search) == "" || !data.Hits?
    ensures r.Some? ==> |r.value| == |data.items| && forall i :: 0 <= i < |r.value| ==> r.value[i] == ToResult(data.items[i])
  {
    if Trim(search) == "" || !data.Hits? then None
    else Some(seq(|data.items|, i requires 0 <= i < |data.items| => ToResult(data.items[i])))
  }

  /** The rank of a result's type: pages, then headings, then text. */
  function TypeKey(r: SearchResult): string {
    match r.kind
    case PageResult => "0"
    case HeadingResult => "1"
    case TextResult => "2"
  }

  /** The results sorted by type; results of one type keep their order. */
  function SortByType(rs: seq<SearchResult>): seq<SearchResult> {
    SortBy(rs, TypeKey)
  }

  /**
   * Sorting by type puts every page before every heading and every heading before every
   * text result, keeps every result, and keeps the order of the results of each type.
   */
  lemma SortByTypeOrder(rs: seq<SearchResult>)
    ensures var s := SortByType(rs);
      && multiset(s) == multiset(rs)
      && (forall i, j :: 0 <= i < j < |s| && s[j].kind == PageResult ==> s[i].kind == PageResult)
      && (forall i, j :: 0 <= i < j < |s| && s[j].kind == HeadingResult ==> s[i].kind != TextResult)
      && (forall k :: WithKey(s, TypeKey, k) == WithKey(rs, TypeKey, k))
  {
    var s := SortByType(rs);
    SortBySorted(rs, TypeKey);
    forall k { SortByStable(rs, TypeKey, k); }
    forall i, j | 0 <= i < j < |s| ensures (s[j].kind == PageResult ==> s[i].kind == PageResult)
      && (s[j].kind == HeadingResult ==> s[i].kind != TextResult)
    {
      assert LexLeq(TypeKey(s[i]), TypeKey(s[j]));
    }
  }

  // ---------------------------------------------------------------------------
  // Grouping by section
  // ---------------------------------------------------------------------------

  /** The sections in the order their first result appears: the map's key order. */
  function SectionKeys(rs: seq<SearchResult>): (r: seq<string>)
    ensures Distinct(r)
    decreases |rs|
  {
    if |rs| == 0 then []
    else
      var ks := SectionKeys(rs[..|rs| - 1]);
      var k := rs[|rs| - 1].section;
      if k in ks then ks else ks + [k]
  }

  /** The results of one section, in order. */
  function InSection(rs: seq<SearchResult>, k: string): (r: seq<SearchResult>)
    ensures |r| <= |rs|
    ensures forall i :: 0 <= i < |r| ==> r[i].section == k
    decreases |rs|
  {
    if |rs| == 0 then []
    else InSection(rs[..|rs| - 1], k) + (if rs[|rs| - 1].section == k then [rs[|rs| - 1]] else [])
  }

  lemma {:induction false} InSectionEmptyIff(rs: seq<SearchResult>, k: string)
    ensures InSection(rs, k) == [] <==> k !in SectionKeys(rs)
    decreases |rs|
  {
    if |rs| > 0 {
      InSectionEmptyIff(rs[..|rs| - 1], k);
    }
  }

  /** A result is in a section's list exactly when it is a result of that section. */
  lemma {:induction false} InSectionMembers(rs: seq<SearchResult>, k: string, x: SearchResult)
    ensures x in InSection(rs, k) <==> x in rs && x.section == k
    decreases |rs|
  {
    if |rs| > 0 {
      var n := |rs| - 1;
      InSectionMembers(rs[..n], k, x);
      assert rs == rs[..n] + [rs[n]];
    }
  }

  /** A section is a key exactly when one of the results is in it. */
  lemma {:induction false} SectionKeysIff(rs: seq<SearchResult>, k: string)
    ensures k in SectionKeys(rs) <==> exists x :: x in rs && x.section == k
    decreases |rs|
  {
    if |rs| > 0 {
      var n := |rs| - 1;
      SectionKeysIff(rs[..n], k);
      assert rs == rs[..n] + [rs[n]];
    }
  }

  /**
   * The grouping loop: each result appended to its section's list in a map that
   * remembers the order its keys were first set.
   */
  method GroupBySection(rs: seq<SearchResult>) returns (keys: seq<string>, grouped: map<string, seq<SearchResult>>)
    ensures keys == SectionKeys(rs)
    ensures forall k :: k in grouped <==> k in keys
    ensures forall k :: k in grouped ==> grouped[k] == InSection(rs, k)
  {
    keys := [];
    grouped := map[];
    for i := 0 to |rs|
      invariant keys == SectionKeys(rs[..i])
      invariant forall k :: k in grouped <==> k in keys
      invariant forall k :: k in grouped ==> grouped[k] == InSection(rs[..i], k)
    {
      assert rs[..i + 1][..i] == rs[..i];
      var section := rs[i].section;
      var existing := if section in grouped then grouped[section] else [];
      if section !in grouped {
        InSectionEmptyIff(rs[..i], section);
        keys := keys + [section];
      }
      grouped := grouped[section := existing + [rs[i]]];
    }
    assert rs[..|rs|] == rs;
  }

  datatype ResultGroup = ResultGroup(section: string, icon: Icon, results: seq<SearchResult>)

  /** One group per section key, its icon taken from its first result's URL. */
  function Groups(rs: seq<SearchResult>): (r: seq<ResultGroup>)
    ensures |r| == |SectionKeys(rs)|
    ensures forall i :: 0 <= i < |r| ==> r[i].section == SectionKeys(rs)[i] && r[i].results == InSection(rs, r[i].section)
  {
    var ks := SectionKeys(rs);
    seq(|ks|, i requires 0 <= i < |ks| =>
      var g := InSection(rs, ks[i]);
      ResultGroup(ks[i], SectionFromUrl(if |g| > 0 then g[0].url else "").icon, g))
  }

  // ---------------------------------------------------------------------------
  // Ordering the groups
  // ---------------------------------------------------------------------------

  /** `sectionOrder.indexOf(section)`: -1 for a section not in the list. */
  function SectionIndex(section: string): (r: int)
    ensures -1 <= r < |SectionOrder|
    ensures r == -1 <==> section !in SectionOrder
    ensures r >= 0 ==> SectionOrder[r] == section && forall j :: 0 <= j < r ==> SectionOrder[j] != section
  {
    IndexFrom(SectionOrder, section, 0)
  }

  function IndexFrom(xs: seq<string>, x: string, i: nat): (r: int)
    requires i <= |xs|
    ensures -1 <= r < |xs|
    ensures r == -1 <==> x !in xs[i..]
    ensures r >= 0 ==> i <= r && xs[r] == x && forall j :: i <= j < r ==> xs[j] != x
    decreases |xs| - i
  {
    if i == |xs| then -1
    else if xs[i] == x then i
    else
      var r := IndexFrom(xs, x, i + 1);
      assert xs[i..] == [xs[i]] + xs[i + 1..];
      r
  }

  /** `a.localeCompare(b)`, approximated by code-point order. */
  function LocaleCompare(a: string, b: string): int {
    if LexLess(a, b) then -1 else if a == b then 0 else 1
  }

  /** The comparator of the group sort. */
  function CompareSections(a: string, b: string): int {
    var ai := SectionIndex(a);
    var bi := SectionIndex(b);
    if ai == -1 && bi == -1 then LocaleCompare(a, b)
    else if ai == -1 then 1
    else if bi == -1 then -1
    else ai - bi
  }

  /**
   * The sort key that orders sections as the comparator does: the priority as a digit,
   * and for sections outside the list the digit 7 followed by the name.
   */
  function SectionKey(section: string): string {
    var i := SectionIndex(section);
    if i >= 0 then [(i + '0' as int) as char] else "7" + section
  }

  function GroupKey(g: ResultGroup): string {
    SectionKey(g.section)
  }

  lemma LexLessCommonHead(c: char, a: string, b: string)
    ensures LexLess([c] + a, [c] + b) <==> LexLess(a, b)
  {
    assert ([c] + a)[1..] == a && ([c] + b)[1..] == b;
  }

  /** The comparator puts `a` first exactly when `a`'s key sorts before `b`'s. */
  lemma CompareIsKeyOrder(a: string, b: string)
    ensures CompareSections(a, b) < 0 <==> LexLess(SectionKey(a), SectionKey(b))
  {
    var ai := SectionIndex(a);
    var bi := SectionIndex(b);
    if ai == -1 && bi == -1 {
      LexLessCommonHead('7', a, b);
      assert SectionKey(a) == ['7'] + a && SectionKey(b) == ['7'] + b;
    }
  }

  /** A known section's key is one digit below `7`; any other section's key starts with `7`. */
  lemma SectionKeyHead(section: string)
    ensures |SectionKey(section)| > 0
    ensures SectionIndex(section) >= 0 ==> SectionKey(section) == [(SectionIndex(section) + '0' as int) as char]
    ensures SectionIndex(section) >= 0 <==> SectionKey(section)[0] < '7'
  {
  }

  /** Sections with the same key are the same section. */
  lemma SectionKeyInjective(a: string, b: string)
    ensures SectionKey(a) == SectionKey(b) ==> a == b
  {
    SectionKeyHead(a);
    SectionKeyHead(b);
    var ai := SectionIndex(a);
    var bi := SectionIndex(b);
    if ai >= 0 && bi >= 0 && SectionKey(a) == SectionKey(b) {
      assert ai == bi;
    } else if ai == -1 && bi == -1 && SectionKey(a) == SectionKey(b) {
      assert SectionKey(a)[1..] == a && SectionKey(b)[1..] == b;
    }
  }

  /** The groups sorted by the section comparator. */
  function SortGroups(gs: seq<ResultGroup>): seq<ResultGroup> {
    SortBy(gs, GroupKey)
  }

  /**
   * After sorting, a group comes before every later group of another section in the
   * comparator's order: listed sections by priority, then unlisted ones by name.
   */
  lemma SortedGroupOrder(gs: seq<ResultGroup>)
    ensures var s := SortGroups(gs);
      && multiset(s) == multiset(gs)
      && forall i, j :: 0 <= i < j < |s| ==>
           s[i].section == s[j].section || CompareSections(s[i].section, s[j].section) < 0
  {
    var s := SortGroups(gs);
    SortBySorted(gs, GroupKey);
    forall i, j | 0 <= i < j < |s| && s[i].section != s[j].section
      ensures CompareSections(s[i].section, s[j].section) < 0
    {
      assert LexLeq(GroupKey(s[i]), GroupKey(s[j]));
      SectionKeyInjective(s[i].section, s[j].section);
      LexLessTotal(GroupKey(s[i]), GroupKey(s[j]));
      CompareIsKeyOrder(s[i].section, s[j].section);
    }
  }

  /** Listed sections come before unlisted ones, and listed ones follow their priority. */
  lemma ComparatorMeaning(a: string, b: string)
    ensures a in SectionOrder && b !in SectionOrder ==> CompareSections(a, b) < 0
    ensures a !in SectionOrder && b in SectionOrder ==> CompareSections(a, b) > 0
    ensures a in SectionOrder && b in SectionOrder ==>
      (CompareSections(a, b) < 0 <==> SectionIndex(a) < SectionIndex(b))
    ensures a !in SectionOrder && b !in SectionOrder ==> (CompareSections(a, b) < 0 <==> LexLess(a, b))
  {
  }

  /** All results of a list of groups, group after group. */
  function Flatten(gs: seq<ResultGroup>): seq<SearchResult>
    decreases |gs|
  {
    if |gs| == 0 then [] else gs[0].results + Flatten(gs[1..])
  }

  lemma {:induction false} FlattenInsert(g: ResultGroup, gs: seq<ResultGroup>)
    ensures |Flatten(Insert(g, gs, GroupKey))| == |g.results| + |Flatten(gs)|
    ensures forall x :: x in Flatten(Insert(g, gs, GroupKey)) <==> x in g.results || x in Flatten(gs)
    decreases |gs|
  {
    if |gs| == 0 {
      assert [g][1..] == [];
    } else if !LexLess(GroupKey(gs[0]), GroupKey(g)) {
      assert ([g] + gs)[1..] == gs;
    } else {
      FlattenInsert(g, gs[1..]);
      assert ([gs[0]] + Insert(g, gs[1..], GroupKey))[1..] == Insert(g, gs[1..], GroupKey);
    }
  }

  /** Sorting the groups keeps every result and adds none. */
  lemma {:induction false} FlattenSortGroups(gs: seq<ResultGroup>)
    ensures |Flatten(SortGroups(gs))| == |Flatten(gs)|
    ensures forall x :: x in Flatten(SortGroups(gs)) <==> x in Flatten(gs)
    decreases |gs|
  {
    if |gs| > 0 {
      FlattenSortGroups(gs[1..]);
      FlattenInsert(gs[0], SortBy(gs[1..], GroupKey));
    }
  }

  /** The total size of the sections `ks`' lists. */
  function SectionSizes(rs: seq<SearchResult>, ks: seq<string>): nat
    decreases |ks|
  {
    if |ks| == 0 then 0 else |InSection(rs, ks[0])| + SectionSizes(rs, ks[1..])
  }

  lemma {:induction false} SectionSizesSnocResult(rs: seq<SearchResult>, x: SearchResult, ks: seq<string>)
    requires Distinct(ks)
    ensures SectionSizes(rs + [x], ks) == SectionSizes(rs, ks) + (if x.section in ks then 1 else 0)
    decreases |ks|
  {
    if |ks| > 0 {
      assert (rs + [x])[..|rs|] == rs;
      assert Distinct(ks[1..]) by {
        forall i, j | 0 <= i < j < |ks[1..]| ensures ks[1..][i] != ks[1..][j] {
          assert ks[1..][i] == ks[i + 1] && ks[1..][j] == ks[j + 1];
        }
      }
      assert ks == [ks[0]] + ks[1..];
      SectionSizesSnocResult(rs, x, ks[1..]);
    }
  }

  lemma {:induction false} SectionSizesSnocKey(rs: seq<SearchResult>, ks: seq<string>, k: string)
    ensures SectionSizes(rs, ks + [k]) == SectionSizes(rs, ks) + |InSection(rs, k)|
    decreases |ks|
  {
    if |ks| > 0 {
      assert (ks + [k])[1..] == ks[1..] + [k];
      SectionSizesSnocKey(rs, ks[1..], k);
    } else {
      assert ([] + [k])[1..] == [];
    }
  }

  /** The sections' lists together hold as many results as there are. */
  lemma {:induction false} SectionSizesTotal(rs: seq<SearchResult>)
    ensures SectionSizes(rs, SectionKeys(rs)) == |rs|
    decreases |rs|
  {
    if |rs| > 0 {
      var n := |rs| - 1;
      var pre := rs[..n];
      var ks := SectionKeys(pre);
      SectionSizesTotal(pre);
      assert rs == pre + [rs[n]];
      SectionSizesSnocResult(pre, rs[n], ks);
      if rs[n].section !in ks {
        SectionSizesSnocKey(rs, ks, rs[n].section);
        InSectionEmptyIff(pre, rs[n].section);
      }
    }
  }

  lemma {:induction false} FlattenGroupsFrom(rs: seq<SearchResult>, gs: seq<ResultGroup>, ks: seq<string>)
    requires |gs| == |ks| && forall i :: 0 <= i < |gs| ==> gs[i].results == InSection(rs, ks[i])
    ensures |Flatten(gs)| == SectionSizes(rs, ks)
    ensures forall x :: x in Flatten(gs) <==> exists i :: 0 <= i < |ks| && x in InSection(rs, ks[i])
    decreases |gs|
  {
    if |gs| > 0 {
      FlattenGroupsFrom(rs, gs[1..], ks[1..]);
      forall x ensures x in Flatten(gs) <==> exists i :: 0 <= i < |ks| && x in InSection(rs, ks[i]) {
        if exists i :: 0 <= i < |ks| && x in InSection(rs, ks[i]) {
          var i :| 0 <= i < |ks| && x in InSection(rs, ks[i]);
          if i > 0 { assert ks[1..][i - 1] == ks[i]; }
        }
        if exists i :: 0 <= i < |ks[1..]| && x in InSection(rs, ks[1..][i]) {
          var i :| 0 <= i < |ks[1..]| && x in InSection(rs, ks[1..][i]);
          assert ks[1..][i] == ks[i + 1];
        }
      }
    }
  }

  /** The groups hold every result, in the group of its section, and no other result. */
  lemma FlattenGroups(rs: seq<SearchResult>)
    ensures |Flatten(Groups(rs))| == |rs|
    ensures forall x :: x in Flatten(Groups(rs)) <==> x in rs
  {
    var ks := SectionKeys(rs);
    FlattenGroupsFrom(rs, Groups(rs), ks);
    SectionSizesTotal(rs);
    forall x ensures (exists i :: 0 <= i < |ks| && x in InSection(rs, ks[i])) <==> x in rs {
      if x in rs {
        SectionKeysIff(rs, x.section);
        var i :| 0 <= i < |ks| && ks[i] == x.section;
        InSectionMembers(rs, ks[i], x);
      }
      if exists i :: 0 <= i < |ks| && x in InSection(rs, ks[i]) {
        var i :| 0 <= i < |ks| && x in InSection(rs, ks[i]);
        InSectionMembers(rs, ks[i], x);
      }
    }
  }

  /** `groupedSearchResults`: the results sorted by type, grouped by section, groups ordered. */
  function GroupedResults(search: string, data: QueryData): Option<seq<ResultGroup>> {
    var rs := SearchResults(search, data);
    if rs.None? then None else Some(SortGroups(Groups(SortByType(rs.value))))
  }

  // ---------------------------------------------------------------------------
  // Commands and items
  // ---------------------------------------------------------------------------

  datatype Command = Command(name: string, shortcutKey: string, description: string, href: string, value: string)

  const Commands: seq<Command> := [
    Command("Getting Started", "1", "Learn the fundamentals and get started with Field Nation Integration",
            "/docs/getting-started/introduction", "getting-started"),
    Command("Connectors", "2", "Pre-built integrations for popular ERP and CRM platforms",
            "/docs/connectors/introduction", "connectors"),
    Command("REST API", "3", "Programmatic access to Field Nation platform via REST API",
            "/docs/rest-api/introduction", "rest-api"),
    Command("Webhooks", "4", "Real-time event notifications via Platform Event Streams",
            "/docs/webhooks/introduction", "webhooks")
  ]

  /** `filteredCommands`: the commands while the search is blank, none otherwise. */
  function FilteredCommands(search: string): (r: seq<Command>)
    ensures r == [] <==> Trim(search) != ""
    ensures r != [] ==> r == Commands
  {
    if Trim(search) != "" then [] else Commands
  }

  /** An entry of the list the keyboard moves through. */
  datatype Item = CommandItem(command: Command) | ResultItem(result: SearchResult)

  /** `"href" in item ? item.href : item.url` */
  function ItemUrl(item: Item): string {
    match item
    case CommandItem(c) => c.href
    case ResultItem(r) => r.url
  }

  function ResultItems(rs: seq<SearchResult>): (r: seq<Item>)
    ensures |r| == |rs| && forall k :: 0 <= k < |rs| ==> r[k] == ResultItem(rs[k])
  {
    seq(|rs|, i requires 0 <= i < |rs| => ResultItem(rs[i]))
  }

  lemma ResultItemsMembers(rs: seq<SearchResult>)
    ensures forall x :: ResultItem(x) in ResultItems(rs) <==> x in rs
  {
    var r := ResultItems(rs);
    forall x ensures ResultItem(x) in r <==> x in rs {
      if ResultItem(x) in r {
        var k :| 0 <= k < |r| && r[k] == ResultItem(x);
        assert rs[k] == x;
      }
      if x in rs {
        var k :| 0 <= k < |rs| && rs[k] == x;
        assert r[k] == ResultItem(x);
      }
    }
  }

  /** `allItems`: the grouped results one after the other, or else the commands. */
  function AllItems(search: string, data: QueryData): seq<Item> {
    var grouped := GroupedResults(search, data);
    if grouped.Some? then
      ResultItems(Flatten(grouped.value))
    else
      var cs := FilteredCommands(search);
      seq(|cs|, i requires 0 <= i < |cs| => CommandItem(cs[i]))
  }

  /** Typing, grouping and ordering the results loses none and adds none. */
  lemma GroupedMembers(rs: seq<SearchResult>)
    ensures var flat := Flatten(SortGroups(Groups(SortByType(rs))));
      |flat| == |rs| && forall x :: x in flat <==> x in rs
  {
    var sorted := SortByType(rs);
    SortByTypeOrder(rs);
    FlattenGroups(sorted);
    FlattenSortGroups(Groups(sorted));
    forall x ensures x in sorted <==> x in rs {
      assert x in multiset(sorted) <==> x in multiset(rs);
    }
  }

  /** While the search is blank the list is the four commands, in order. */
  lemma AllItemsCommands(search: string, data: QueryData)
    ensures Trim(search) == "" ==>
      |AllItems(search, data)| == |Commands|
      && forall i :: 0 <= i < |Commands| ==> AllItems(search, data)[i] == CommandItem(Commands[i])
  {
  }

  /** While the search is not blank and no hits are in, the list is empty. */
  lemma AllItemsPending(search: string, data: QueryData)
    ensures Trim(search) != "" && !data.Hits? ==> AllItems(search, data) == []
  {
  }

  /**
   * While the search is not blank and hits are in, the list holds each hit's result, as many
   * items as hits, and nothing else.
   */
  lemma AllItemsResults(search: string, data: QueryData)
    ensures Trim(search) != "" && data.Hits? ==>
      |AllItems(search, data)| == |data.items|
      && forall x :: ResultItem(x) in AllItems(search, data) <==> exists i :: 0 <= i < |data.items| && x == ToResult(data.items[i])
  {
    if Trim(search) != "" && data.Hits? {
      var rs := SearchResults(search, data).value;
      GroupedMembers(rs);
      var flat := Flatten(GroupedResults(search, data).value);
      assert AllItems(search, data) == ResultItems(flat);
      ResultItemsMembers(flat);
      ResultsMembers(data.items, rs);
    }
  }

  lemma ResultsMembers(items: seq<RawResult>, rs: seq<SearchResult>)
    requires |rs| == |items| && forall i :: 0 <= i < |rs| ==> rs[i] == ToResult(items[i])
    ensures forall x :: x in rs <==> exists i :: 0 <= i < |items| && x == ToResult(items[i])
  {
    forall x ensures x in rs <==> exists i :: 0 <= i < |items| && x == ToResult(items[i]) {
      if x in rs {
        var i :| 0 <= i < |rs| && rs[i] == x;
      }
      if exists i :: 0 <= i < |items| && x == ToResult(items[i]) {
        var i :| 0 <= i < |items| && x == ToResult(items[i]);
        assert rs[i] == x;
      }
    }
  }

  // ---------------------------------------------------------------------------
  // Keyboard
  // ---------------------------------------------------------------------------

  /** ArrowDown: the next item, wrapping to the first. */
  function NextIndex(i: int, n: nat): int {
    if i < n - 1 then i + 1 else 0
  }

  /** ArrowUp: the previous item, wrapping to the last. */
  function PrevIndex(i: int, n: nat): int {
    if i > 0 then i - 1 else n - 1
  }

  /**
   * The arrows keep a selection that is on an item on an item, wrap around at both ends,
   * and undo each other.
   */
  lemma ArrowKeys(i: int, n: nat)
    requires 0 <= i < n
    ensures 0 <= NextIndex(i, n) < n && 0 <= PrevIndex(i, n) < n
    ensures NextIndex(n - 1, n) == 0 && PrevIndex(0, n) == n - 1
    ensures PrevIndex(NextIndex(i, n), n) == i && NextIndex(PrevIndex(i, n), n) == i
  {
  }

  function IsDigit(c: char): bool {
    '0' <= c <= '9'
  }

  /** The longest run of decimal digits `s` starts with. */
  function LeadingDigits(s: string): (r: string)
    ensures |r| <= |s| && r == s[..|r|]
    ensures forall i :: 0 <= i < |r| ==> IsDigit(r[i])
    ensures |r| < |s| ==> !IsDigit(s[|r|])
    decreases |s|
  {
    if |s| > 0 && IsDigit(s[0]) then [s[0]] + LeadingDigits(s[1..]) else ""
  }

  function DigitsValue(ds: string): nat
    decreases |ds|
  {
    if |ds| == 0 then 0
    else
      var d := (ds[|ds| - 1] as int) - ('0' as int);
      DigitsValue(ds[..|ds| - 1]) * 10 + (if 0 <= d <= 9 then d else 0)
  }

  /** `Number.parseInt(s, 10)` when it gives an integer; `None` for NaN. */
  function ParseInt(s: string): Option<int> {
    var t := TrimStart(s);
    var signed := |t| > 0 && (t[0] == '-' || t[0] == '+');
    var ds := LeadingDigits(if signed then t[1..] else t);
    if ds == "" then None
    else
      var v: int := DigitsValue(ds);
      if signed && t[0] == '-' then Some(-v) else Some(v)
  }

  /** A one-digit key parses to its digit, and a named key such as "Enter" to nothing. */
  lemma ParseDigitKey(c: char)
    ensures IsDigit(c) ==> ParseInt([c]) == Some((c as int) - ('0' as int))
    ensures !IsDigit(c) && !IsSpace(c) && c != '-' && c != '+' ==> ParseInt([c]).None?
  {
    var s := [c];
    if !IsSpace(c) {
      assert TrimStart(s) == s;
      if IsDigit(c) {
        assert LeadingDigits(s) == s by { assert LeadingDigits(s[1..]) == ""; }
        assert DigitsValue(s) == (c as int) - ('0' as int) by { assert s[..0] == []; }
      } else if c != '-' && c != '+' {
        assert LeadingDigits(s) == "";
      }
    }
  }

  /** What a key press in the palette does. */
  datatype Action = Close | Select(index: int) | Navigate(url: string) | Ignore

  /**
   * `handlePaletteKeyDown`'s decision, from the key, the selection, the search and the listed
   * items (`allItems`); `navigateToItem` does nothing when there is no item at the index.
   */
  function KeyAction(key: string, selected: int, search: string, items: seq<Item>): Action {
    if key == "Escape" then Close
    else if key == "ArrowDown" then Select(NextIndex(selected, |items|))
    else if key == "ArrowUp" then Select(PrevIndex(selected, |items|))
    else if key == "Enter" && 0 <= selected < |items| then Navigate(ItemUrl(items[selected]))
    else if Trim(search) == "" then
      var k := ParseInt(key);
      var cs := FilteredCommands(search);
      if k.Some? && 1 <= k.value <= |cs| && k.value - 1 < |items| then Navigate(ItemUrl(items[k.value - 1])) else Ignore
    else Ignore
  }

  /**
   * A digit key opens the command of that number exactly when the search is blank and
   * the number is one of the commands'; Enter opens the selected item when there is one.
   */
  lemma KeyNavigation(key: string, selected: int, search: string, data: QueryData)
    requires key != "Escape" && key != "ArrowDown" && key != "ArrowUp" && key != "Enter"
    ensures KeyAction(key, selected, search, AllItems(search, data)).Navigate? <==>
      Trim(search) == "" && ParseInt(key).Some? && 1 <= ParseInt(key).value <= |Commands|
    ensures KeyAction(key, selected, search, AllItems(search, data)).Navigate? ==>
      KeyAction(key, selected, search, AllItems(search, data)).url == Commands[ParseInt(key).value - 1].href
  {
    if Trim(search) == "" {
      AllItemsCommands(search, data);
    }
  }

  lemma EnterNavigation(selected: int, search: string, data: QueryData)
    ensures var items := AllItems(search, data);
      0 <= selected < |items| ==> KeyAction("Enter", selected, search, items) == Navigate(ItemUrl(items[selected]))
  {
  }

  /**
   * What one key press typed in the search box does. The box and the dialog around it both
   * run `handlePaletteKeyDown`, and nothing stops the event between them. Both runs decide
   * from the same rendered state, so Escape, Enter and a digit act twice to the effect of once,
   * while the two functional updates of the selection compose.
   */
  function InInputAction(key: string, selected: int, search: string, items: seq<Item>): Action {
    var a := KeyAction(key, selected, search, items);
    if a.Select? then Select(KeyAction(key, a.index, search, items).index) else a
  }

  /**
   * Typed in the search box, the arrows move the selection by two: over an even number of
   * items an arrow never changes the parity of the selection, so from the first item every
   * second item is out of reach, and over two items the arrows do not move at all. Every
   * other key acts as it does once.
   */
  lemma InInputArrowsSkip(key: string, selected: int, search: string, items: seq<Item>)
    requires 0 <= selected < |items|
    ensures key != "ArrowDown" && key != "ArrowUp" ==>
      InInputAction(key, selected, search, items) == KeyAction(key, selected, search, items)
    ensures (key == "ArrowDown" || key == "ArrowUp") && |items| % 2 == 0 ==>
      InInputAction(key, selected, search, items).index % 2 == selected % 2
    ensures (key == "ArrowDown" || key == "ArrowUp") && |items| == 2 ==>
      InInputAction(key, selected, search, items) == Select(selected)
    ensures key == "ArrowDown" && |items| == 4 && selected == 0 ==>
      InInputAction(key, selected, search, items) == Select(2)
  {
    var n := |items|;
    ArrowKeys(selected, n);
    if key == "ArrowDown" {
      ArrowKeys(NextIndex(selected, n), n);
    } else if key == "ArrowUp" {
      ArrowKeys(PrevIndex(selected, n), n);
    }
  }

  /** The palette's state. */
  class Palette {
    var open: bool
    var query: string
    var search: string
    var selectedIndex: int

    constructor ()
      ensures !open && query == "" && search == "" && selectedIndex == 0
    {
      open := false;
      query := "";
      search := "";
      selectedIndex := 0;
    }

    /** `handleOpen` */
    method Open()
      modifies this
      ensures open && selectedIndex == 0
      ensures query == old(query) && search == old(search)
    {
      open := true;
      selectedIndex := 0;
    }

    /** `handleSelect`: close, clear the query and the search, select the first item. */
    method Dismiss()
      modifies this
      ensures !open && query == "" && search == "" && selectedIndex == 0
    {
      open := false;
      query := "";
      search := "";
      selectedIndex := 0;
    }

    /**
     * Typing: the query changes, the search follows it, and a changed query selects the
     * first item again.
     */
    method SetQuery(q: string)
      modifies this
      ensures query == q && search == q && open == old(open)
      ensures selectedIndex == if q != old(query) then 0 else old(selectedIndex)
    {
      if q != query {
        selectedIndex := 0;
      }
      query := q;
      search := q;
    }

    /** The global ⌘K / Ctrl+K shortcut toggles the palette. */
    method Toggle()
      modifies this
      ensures open == !old(open)
      ensures selectedIndex == 0
      ensures old(open) ==> query == "" && search == ""
      ensures !old(open) ==> query == old(query) && search == old(search)
    {
      if open {
        Dismiss();
      } else {
        Open();
      }
    }

    /**
     * A key press inside the palette: the arrows move the selection, Escape closes,
     * and Enter or a command's digit navigates and closes. Returns where the browser goes.
     */
    method KeyDown(key: string, data: QueryData) returns (target: Option<string>)
      modifies this
      ensures var a := KeyAction(key, old(selectedIndex), old(search), AllItems(old(search), data));
        && (a.Close? ==> target.None? && !open && query == "" && search == "" && selectedIndex == 0)
        && (a.Navigate? ==> target == Some(a.url) && !open && query == "" && search == "" && selectedIndex == 0)
        && (a.Select? ==>
              (target.None? && selectedIndex == a.index && open == old(open) && query == old(query) && search == old(search)))
        && (a.Ignore? ==>
              (target.None? && open == old(open) && query == old(query) && search == old(search) && selectedIndex == old(selectedIndex)))
    {
      target := Perform(KeyAction(key, selectedIndex, search, AllItems(search, data)));
    }

    /**
     * A key press typed in the search box, where the focus sits once the palette opens: the
     * handler runs on the box and again on the dialog (`InInputAction`). Enter and a digit
     * push the same page twice.
     */
    method KeyDownInInput(key: string, data: QueryData) returns (target: Option<string>)
      modifies this
      ensures var a := InInputAction(key, old(selectedIndex), old(search), AllItems(old(search), data));
        && (a.Close? ==> target.None? && !open && query == "" && search == "" && selectedIndex == 0)
        && (a.Navigate? ==> target == Some(a.url) && !open && query == "" && search == "" && selectedIndex == 0)
        && (a.Select? ==>
              (target.None? && selectedIndex == a.index && open == old(open) && query == old(query) && search == old(search)))
        && (a.Ignore? ==>
              (target.None? && open == old(open) && query == old(query) && search == old(search) && selectedIndex == old(selectedIndex)))
    {
      target := Perform(InInputAction(key, selectedIndex, search, AllItems(search, data)));
    }

    /** Carries out a decided action: close, navigate and close, move the selection, or nothing. */
    method Perform(a: Action) returns (target: Option<string>)
      modifies this
      ensures a.Close? ==> target.None? && !open && query == "" && search == "" && selectedIndex == 0
      ensures a.Navigate? ==> target == Some(a.url) && !open && query == "" && search == "" && selectedIndex == 0
      ensures a.Select? ==>
        target.None? && selectedIndex == a.index && open == old(open) && query == old(query) && search == old(search)
      ensures a.Ignore? ==>
        target.None? && open == old(open) && query == old(query) && search == old(search) && selectedIndex == old(selectedIndex)
    {
      target := None;
      match a {
        case Close =>
          Dismiss();
        case Navigate(url) =>
          target := Some(url);
          Dismiss();
        case Select(i) =>
          selectedIndex := i;
        case Ignore =>
      }
    }
  }

  /**
   * Whatever key is pressed, a selection that was on an item stays on an item or goes
   * back to the first, as long as the list does not change.
   */
  lemma SelectionStaysInRange(key: string, selected: int, search: string, items: seq<Item>)
    requires 0 <= selected < |items|
    ensures var a := KeyAction(key, selected, search, items);
      a.Select? ==> 0 <= a.index < |items|
  {
    ArrowKeys(selected, |items|);
  }
}
