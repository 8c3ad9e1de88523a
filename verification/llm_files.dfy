/**
 * The site-wide files for language models: an outline of every page grouped by
 * category, the full text of every page in the same grouping, and the path of each
 * page's own text file.
 */
module LlmFiles {
  import opened Wrappers
  import opened Text
  import opened Sorting
  import Source
  import LlmText

  // ---------------------------------------------------------------------------
  // Page names from the page tree
  // ---------------------------------------------------------------------------

  /** A node of the navigation tree; a folder may have an index page of its own. */
  datatype TreeNode =
    | PageNode(url: string, name: string)
    | FolderNode(name: string, indexUrl: Option<string>, children: seq<TreeNode>)
    | SeparatorNode(name: string)

  /** The `map.set` calls the traversal of one node makes, in the order it makes them. */
  function Writes(node: TreeNode): seq<(string, string)>
    decreases node, 1
  {
    match node
    case PageNode(url, name) => if url != "" && name != "" then [(url, name)] else []
    case FolderNode(name, index, children) =>
      (if index.Some? && index.value != "" && name != "" then [(index.value, name)] else [])
      + WritesOf(children)
    case SeparatorNode(_) => []
  }

  function WritesOf(nodes: seq<TreeNode>): seq<(string, string)>
    decreases nodes, 0
  {
    if |nodes| == 0 then [] else Writes(nodes[0]) + WritesOf(nodes[1..])
  }

  /** The map after the given writes, each overwriting what an earlier one set. */
  function Apply(m: map<string, string>, writes: seq<(string, string)>): map<string, string>
    decreases |writes|
  {
    if |writes| == 0 then m else Apply(m[writes[0].0 := writes[0].1], writes[1..])
  }

  lemma {:induction false} ApplyAppend(m: map<string, string>, a: seq<(string, string)>, b: seq<(string, string)>)
    ensures Apply(m, a + b) == Apply(Apply(m, a), b)
    decreases |a|
  {
    if |a| == 0 {
      assert a + b == b;
    } else {
      assert (a + b)[1..] == a[1..] + b;
      ApplyAppend(m[a[0].0 := a[0].1], a[1..], b);
    }
  }

  /** A url no write names keeps what it had. */
  lemma {:induction false} ApplyUnwritten(m: map<string, string>, writes: seq<(string, string)>, url: string)
    requires forall i :: 0 <= i < |writes| ==> writes[i].0 != url
    ensures url in Apply(m, writes) <==> url in m
    ensures url in m ==> Apply(m, writes)[url] == m[url]
    decreases |writes|
  {
    if |writes| > 0 {
      assert forall i :: 0 <= i < |writes[1..]| ==> writes[1..][i] == writes[i + 1];
      ApplyUnwritten(m[writes[0].0 := writes[0].1], writes[1..], url);
    }
  }

  /** Later writes win: a url holds the name of its last write. */
  lemma ApplyLast(m: map<string, string>, writes: seq<(string, string)>, url: string, i: nat)
    requires i < |writes| && writes[i].0 == url
    requires forall j :: i < j < |writes| ==> writes[j].0 != url
    ensures url in Apply(m, writes) && Apply(m, writes)[url] == writes[i].1
  {
    var upto := writes[..i] + [writes[i]];
    var after := writes[i + 1..];
    assert writes == upto + after;
    ApplyAppend(m, upto, after);
    ApplyAppend(m, writes[..i], [writes[i]]);
    assert forall j :: 0 <= j < |after| ==> after[j] == writes[i + 1 + j];
    ApplyUnwritten(Apply(m, upto), after, url);
  }

  /** The map being filled by `buildNameMap`. */
  class NameMapBuilder {
    var names: map<string, string>

    constructor()
      ensures names == map[]
    {
      names := map[];
    }

    /** `traverse(node)` */
    method Traverse(node: TreeNode)
      modifies this
      ensures names == Apply(old(names), Writes(node))
      decreases node, 1
    {
      match node
      case PageNode(url, name) =>
        if url != "" && name != "" {
          names := names[url := name];
        }
      case FolderNode(name, index, children) =>
        ghost var before := names;
        if index.Some? && index.value != "" && name != "" {
          names := names[index.value := name];
        }
        ghost var head := if index.Some? && index.value != "" && name != "" then [(index.value, name)] else [];
        assert names == Apply(before, head);
        TraverseAll(children);
        ApplyAppend(before, head, WritesOf(children));
      case SeparatorNode(_) =>
    }

    /** `for (const child of children) traverse(child)` */
    method TraverseAll(nodes: seq<TreeNode>)
      modifies this
      ensures names == Apply(old(names), WritesOf(nodes))
      decreases nodes, 0
    {
      ghost var start := names;
      for i := 0 to |nodes|
        invariant names == Apply(start, WritesOf(nodes[..i]))
      {
        ghost var before := names;
        Traverse(nodes[i]);
        WritesOfSnoc(nodes[..i], nodes[i]);
        assert nodes[..i + 1] == nodes[..i] + [nodes[i]];
        ApplyAppend(start, WritesOf(nodes[..i]), Writes(nodes[i]));
      }
      assert nodes[..|nodes|] == nodes;
    }
  }

  lemma {:induction false} WritesOfSnoc(nodes: seq<TreeNode>, node: TreeNode)
    ensures WritesOf(nodes + [node]) == WritesOf(nodes) + Writes(node)
    decreases |nodes|
  {
    if |nodes| == 0 {
      assert [node][1..] == [];
      assert nodes + [node] == [node];
    } else {
      assert (nodes + [node])[1..] == nodes[1..] + [node];
      WritesOfSnoc(nodes[1..], node);
    }
  }

  /** `buildNameMap(tree)`: the url-to-name map of every named page and folder index of the tree. */
  method BuildNameMap(roots: seq<TreeNode>) returns (names: map<string, string>)
    ensures names == Apply(map[], WritesOf(roots))
  {
    var builder := new NameMapBuilder();
    builder.TraverseAll(roots);
    names := builder.names;
  }

  /** A page tree's name map holds exactly the urls it writes, each with the name of its last write. */
  lemma NameMapLookup(roots: seq<TreeNode>, url: string)
    ensures url in Apply(map[], WritesOf(roots)) <==> exists i :: 0 <= i < |WritesOf(roots)| && WritesOf(roots)[i].0 == url
  {
    var ws := WritesOf(roots);
    if exists i :: 0 <= i < |ws| && ws[i].0 == url {
      var i := LastWrite(ws, url);
      ApplyLast(map[], ws, url, i);
    } else {
      ApplyUnwritten(map[], ws, url);
    }
  }

  /** The index of the last write to `url`. */
  lemma LastWrite(ws: seq<(string, string)>, url: string) returns (i: nat)
    requires exists i :: 0 <= i < |ws| && ws[i].0 == url
    ensures i < |ws| && ws[i].0 == url && forall j :: i < j < |ws| ==> ws[j].0 != url
  {
    var k :| 0 <= k < |ws| && ws[k].0 == url;
    i := k;
    while exists j :: i < j < |ws| && ws[j].0 == url
      invariant i < |ws| && ws[i].0 == url
      decreases |ws| - i
    {
      var j :| i < j < |ws| && ws[j].0 == url;
      i := j;
    }
  }

  // ---------------------------------------------------------------------------
  // Page names and page lists
  // ---------------------------------------------------------------------------

  /**
   * `getPageName`: the tree's name for the url when it has a non-empty one, otherwise the
   * url's last segment as a title ("page" when the url has no segment).
   */
  function GetPageName(url: string, names: map<string, string>): string {
    if url in names && names[url] != "" then names[url]
    else Titleize(Last(Segments(url, '/')).GetOr("page"))
  }

  /** "page" as a title. */
  lemma DefaultPageName()
    ensures Titleize("page") == "Page"
  {
    assert DashesToSpaces("page") == "page";
    var r := Capitalize("page");
    assert WordStart("page", 0, false);
    assert forall i :: 1 <= i < 4 ==> !WordStart("page", i, false);
  }

  /**
   * Without a name in the map, a page at `/a/b/.../c` is named after `c`, with dashes as
   * spaces and capitalised words.
   */
  lemma PageNameFallback(segs: seq<string>, names: map<string, string>)
    requires |segs| >= 1
    requires forall i :: 0 <= i < |segs| ==> segs[i] != "" && '/' !in segs[i]
    requires var url := "/" + Join(segs, "/"); url !in names || names[url] == ""
    ensures GetPageName("/" + Join(segs, "/"), names) == Titleize(segs[|segs| - 1])
  {
    SegmentsOfPath(segs);
  }

  /** Without a name in the map, a url with no segment, such as "/", gives "Page". */
  lemma PageNameDefault(url: string, names: map<string, string>)
    requires url !in names || names[url] == ""
    requires Segments(url, '/') == []
    ensures GetPageName(url, names) == "Page"
  {
    DefaultPageName();
  }

  /** A page's name is never empty. */
  lemma PageNameNonEmpty(url: string, names: map<string, string>)
    ensures GetPageName(url, names) != ""
  {
    var segs := Segments(url, '/');
    if |segs| == 0 { DefaultPageName(); }
  }

  /** The sort key of `formatPages`. */
  function NameKey(names: map<string, string>): Source.Page -> string {
    (p: Source.Page) => GetPageName(p.url, names)
  }

  /** `- <name> — <url>` */
  function Item(p: Source.Page, names: map<string, string>): string {
    "- " + GetPageName(p.url, names) + " \U{2014} " + p.url
  }

  function Items(pages: seq<Source.Page>, names: map<string, string>): (r: seq<string>)
    ensures |r| == |pages| && forall i :: 0 <= i < |pages| ==> r[i] == Item(pages[i], names)
  {
    seq(|pages|, i requires 0 <= i < |pages| => Item(pages[i], names))
  }

  /** The lines of a non-empty page list whose pages are already in order. */
  function PageListLines(title: string, sorted: seq<Source.Page>, names: map<string, string>): seq<string> {
    ["### " + title] + Items(sorted, names) + [""]
  }

  /**
   * `formatPages`: nothing for no pages, otherwise a heading, one line per page in name
   * order (equal names in their original order) and an empty line.
   */
  function FormatPages(title: string, pages: seq<Source.Page>, names: map<string, string>): (r: string)
    ensures r == "" <==> |pages| == 0
  {
    if |pages| == 0 then ""
    else
      var lines := PageListLines(title, SortBy(pages, NameKey(names)), names);
      assert Join(lines, "\n") != "" by { JoinHead(lines, "\n"); }
      Join(lines, "\n")
  }

  /** A join starts with its first part. */
  lemma JoinHead(parts: seq<string>, sep: string)
    requires |parts| >= 1
    ensures StartsWith(Join(parts, sep), parts[0])
  {
    if |parts| > 1 {
      assert Join(parts, sep) == parts[0] + (sep + Join(parts[1..], sep));
    }
  }

  /** Reordering the pages keeps their items single lines. */
  lemma ItemsSingleLines(pages: seq<Source.Page>, sorted: seq<Source.Page>, names: map<string, string>)
    requires multiset(sorted) == multiset(pages)
    requires forall i :: 0 <= i < |pages| ==> '\n' !in Item(pages[i], names)
    ensures forall i :: 0 <= i < |sorted| ==> '\n' !in Item(sorted[i], names)
  {
    forall i | 0 <= i < |sorted| ensures '\n' !in Item(sorted[i], names) {
      assert sorted[i] in multiset(pages);
      var k :| 0 <= k < |pages| && pages[k] == sorted[i];
    }
  }

  /** Lines without newlines joined by newlines split back into those lines. */
  lemma FramedLines(title: string, sorted: seq<Source.Page>, names: map<string, string>)
    requires '\n' !in title
    requires forall i :: 0 <= i < |sorted| ==> '\n' !in Item(sorted[i], names)
    ensures Split(Join(PageListLines(title, sorted, names), "\n"), '\n') == PageListLines(title, sorted, names)
  {
    var items := Items(sorted, names);
    forall i | 0 <= i < |items| ensures '\n' !in items[i] {
      assert items[i] == Item(sorted[i], names);
    }
    LinesSingle(title, items);
    SplitJoin(["### " + title] + items + [""], '\n');
  }

  /** A heading, single-line items and an empty line are all single lines. */
  lemma LinesSingle(title: string, items: seq<string>)
    requires '\n' !in title
    requires forall i :: 0 <= i < |items| ==> '\n' !in items[i]
    ensures var lines := ["### " + title] + items + [""];
      forall i :: 0 <= i < |lines| ==> '\n' !in lines[i]
  {
    var head := ["### " + title];
    var lines := head + items + [""];
    assert '\n' !in head[0] by { assert '\n' !in "### "; }
    forall i | 0 <= i < |lines| ensures '\n' !in lines[i] {
      if i == 0 {
        assert lines[0] == head[0];
      } else if i < |lines| - 1 {
        assert lines[i] == (head + items)[i] == items[i - 1];
      } else {
        assert lines[i] == "";
      }
    }
  }

  /**
   * The lines of a page list: its heading, then one item per page in the order `SortBy`
   * gives (sorted by name, every page as often as in the list), then an empty line.
   */
  lemma FormatPagesLines(title: string, pages: seq<Source.Page>, names: map<string, string>)
    requires |pages| > 0 && '\n' !in title
    requires forall i :: 0 <= i < |pages| ==> '\n' !in Item(pages[i], names)
    ensures Split(FormatPages(title, pages, names), '\n')
      == ["### " + title] + Items(SortBy(pages, NameKey(names)), names) + [""]
  {
    var sorted := SortBy(pages, NameKey(names));
    SortBySorted(pages, NameKey(names));
    ItemsSingleLines(pages, sorted, names);
    FramedLines(title, sorted, names);
  }

  // ---------------------------------------------------------------------------
  // Grouping by category
  // ---------------------------------------------------------------------------

  /** `page.slugs?.[0] ?? "other"` */
  function CategoryKey(p: Source.Page): string {
    if |p.slugs| > 0 then p.slugs[0] else "other"
  }

  /** The category keys in the order their first page appears, which is the record's key order. */
  function KeyOrder(pages: seq<Source.Page>): (r: seq<string>)
    ensures Distinct(r)
    decreases |pages|
  {
    if |pages| == 0 then []
    else
      var ks := KeyOrder(pages[..|pages| - 1]);
      var k := CategoryKey(pages[|pages| - 1]);
      if k in ks then ks else ks + [k]
  }

  /** The pages of one category, in their original order. */
  function Group(pages: seq<Source.Page>, k: string): (r: seq<Source.Page>)
    ensures |r| <= |pages|
    ensures forall i :: 0 <= i < |r| ==> CategoryKey(r[i]) == k
    decreases |pages|
  {
    if |pages| == 0 then []
    else
      var p := pages[|pages| - 1];
      Group(pages[..|pages| - 1], k) + (if CategoryKey(p) == k then [p] else [])
  }

  /** A record of groups: its keys in enumeration order and the list under each key. */
  datatype Grouped = Grouped(keys: seq<string>, groups: map<string, seq<Source.Page>>)

  /** The record's keys are exactly its entries, each listed once. */
  ghost predicate ValidRecord(g: Grouped) {
    Distinct(g.keys) && forall k :: k in g.groups <==> k in g.keys
  }

  /** What `groupByCategory` builds: one list per category, keys in order of first appearance. */
  function Grouping(pages: seq<Source.Page>): (g: Grouped)
    ensures ValidRecord(g)
  {
    Grouped(KeyOrder(pages), map k | k in KeyOrder(pages) :: Group(pages, k))
  }

  lemma PrefixSnoc(pages: seq<Source.Page>, i: nat)
    requires i < |pages|
    ensures pages[..i + 1][..i] == pages[..i] && pages[..i + 1][i] == pages[i]
  {
  }

  /** A category has a group exactly when some page has that key. */
  lemma {:induction false} KeyOrderIff(pages: seq<Source.Page>, k: string)
    ensures k in KeyOrder(pages) <==> exists i :: 0 <= i < |pages| && CategoryKey(pages[i]) == k
    decreases |pages|
  {
    if |pages| > 0 {
      var n := |pages| - 1;
      KeyOrderIff(pages[..n], k);
      if exists i :: 0 <= i < n && CategoryKey(pages[..n][i]) == k {
        var i :| 0 <= i < n && CategoryKey(pages[..n][i]) == k;
        assert pages[i] == pages[..n][i];
      }
      if exists i :: 0 <= i < |pages| && CategoryKey(pages[i]) == k {
        var i :| 0 <= i < |pages| && CategoryKey(pages[i]) == k;
        if i < n { assert pages[..n][i] == pages[i]; }
      }
    }
  }

  /** A group is empty exactly when its category never occurs. */
  lemma {:induction false} GroupEmptyIff(pages: seq<Source.Page>, k: string)
    ensures Group(pages, k) == [] <==> k !in KeyOrder(pages)
    decreases |pages|
  {
    if |pages| > 0 {
      GroupEmptyIff(pages[..|pages| - 1], k);
    }
  }

  /** A page is in a group exactly when it is one of the pages and has that group's key. */
  lemma {:induction false} GroupMembers(pages: seq<Source.Page>, k: string, p: Source.Page)
    ensures p in Group(pages, k) <==> p in pages && CategoryKey(p) == k
    decreases |pages|
  {
    if |pages| > 0 {
      var n := |pages| - 1;
      GroupMembers(pages[..n], k, p);
      assert pages == pages[..n] + [pages[n]];
    }
  }

  /** The total size of the groups of the keys `ks`. */
  function SizeSum(pages: seq<Source.Page>, ks: seq<string>): nat
    decreases |ks|
  {
    if |ks| == 0 then 0 else |Group(pages, ks[0])| + SizeSum(pages, ks[1..])
  }

  lemma {:induction false} SizeSumSnocPage(pages: seq<Source.Page>, p: Source.Page, ks: seq<string>)
    requires Distinct(ks)
    ensures SizeSum(pages + [p], ks) == SizeSum(pages, ks) + (if CategoryKey(p) in ks then 1 else 0)
    decreases |ks|
  {
    if |ks| > 0 {
      assert (pages + [p])[..|pages|] == pages;
      assert Distinct(ks[1..]) by {
        forall i, j | 0 <= i < j < |ks[1..]| ensures ks[1..][i] != ks[1..][j] {
          assert ks[1..][i] == ks[i + 1] && ks[1..][j] == ks[j + 1];
        }
      }
      assert ks == [ks[0]] + ks[1..];
      SizeSumSnocPage(pages, p, ks[1..]);
    }
  }

  lemma {:induction false} SizeSumSnocKey(pages: seq<Source.Page>, ks: seq<string>, k: string)
    ensures SizeSum(pages, ks + [k]) == SizeSum(pages, ks) + |Group(pages, k)|
    decreases |ks|
  {
    if |ks| > 0 {
      assert (ks + [k])[1..] == ks[1..] + [k];
      SizeSumSnocKey(pages, ks[1..], k);
    } else {
      assert ([] + [k])[1..] == [];
    }
  }

  /** The groups together hold every page exactly once: their sizes add up to the page count. */
  lemma {:induction false} GroupSizes(pages: seq<Source.Page>)
    ensures SizeSum(pages, KeyOrder(pages)) == |pages|
    decreases |pages|
  {
    if |pages| > 0 {
      var n := |pages| - 1;
      var pre := pages[..n];
      var p := pages[n];
      var ks := KeyOrder(pre);
      GroupSizes(pre);
      assert pages == pre + [p];
      SizeSumSnocPage(pre, p, ks);
      if CategoryKey(p) !in ks {
        SizeSumSnocKey(pages, ks, CategoryKey(p));
        GroupEmptyIff(pre, CategoryKey(p));
      }
    }
  }

  /** `groupByCategory`: one pass appending each page to the list of its category. */
  method GroupByCategory(pages: seq<Source.Page>) returns (g: Grouped)
    ensures g == Grouping(pages)
  {
    var keys: seq<string> := [];
    var grouped: map<string, seq<Source.Page>> := map[];
    for i := 0 to |pages|
      invariant keys == KeyOrder(pages[..i])
      invariant forall k :: k in grouped <==> k in keys
      invariant forall k :: k in grouped ==> grouped[k] == Group(pages[..i], k)
    {
      PrefixSnoc(pages, i);
      var key := CategoryKey(pages[i]);
      if key !in grouped {
        GroupEmptyIff(pages[..i], key);
        grouped := grouped[key := []];
        keys := keys + [key];
      }
      grouped := grouped[key := grouped[key] + [pages[i]]];
    }
    assert pages[..|pages|] == pages;
    g := Grouped(keys, grouped);
    assert grouped == Grouping(pages).groups;
  }

  // ---------------------------------------------------------------------------
  // Ordering the groups
  // ---------------------------------------------------------------------------

  /** One `[key, pages]` pair of `orderedEntries`. */
  type Entry = (string, seq<Source.Page>)

  /** The preferred keys the record holds, in preferred order. */
  function Present(order: seq<string>, groups: map<string, seq<Source.Page>>): (r: seq<string>)
    ensures forall k :: k in r <==> k in order && k in groups
    decreases |order|
  {
    if |order| == 0 then []
    else
      var n := |order| - 1;
      assert order == order[..n] + [order[n]];
      Present(order[..n], groups) + (if order[n] in groups then [order[n]] else [])
  }

  /** The record's keys that are not preferred, in the record's order. */
  function Others(keys: seq<string>, order: seq<string>): (r: seq<string>)
    ensures forall k :: k in r <==> k in keys && k !in order
    decreases |keys|
  {
    if |keys| == 0 then []
    else
      var n := |keys| - 1;
      assert keys == keys[..n] + [keys[n]];
      Others(keys[..n], order) + (if keys[n] !in order then [keys[n]] else [])
  }

  /** The keys `orderedEntries` visits: the preferred ones present, then the rest. */
  function EntryKeys(g: Grouped, order: seq<string>): seq<string> {
    Present(order, g.groups) + Others(g.keys, order)
  }

  /** The entries of the keys `ks`, each with its list. */
  function EntriesOf(g: Grouped, ks: seq<string>): (r: seq<Entry>)
    requires forall k :: k in ks ==> k in g.groups
    ensures |r| == |ks| && forall i :: 0 <= i < |ks| ==> r[i] == (ks[i], g.groups[ks[i]])
  {
    seq(|ks|, i requires 0 <= i < |ks| => (ks[i], g.groups[ks[i]]))
  }

  lemma EntriesAppend(g: Grouped, a: seq<string>, b: seq<string>)
    requires forall k :: k in a + b ==> k in g.groups
    ensures EntriesOf(g, a + b) == EntriesOf(g, a) + EntriesOf(g, b)
  {
  }

  lemma EntriesSnoc(g: Grouped, ks: seq<string>, k: string)
    requires forall x :: x in ks ==> x in g.groups
    requires k in g.groups
    ensures EntriesOf(g, ks + [k]) == EntriesOf(g, ks) + [(k, g.groups[k])]
  {
    EntriesAppend(g, ks, [k]);
  }

  lemma PresentSnoc(order: seq<string>, groups: map<string, seq<Source.Page>>, i: nat)
    requires i < |order|
    ensures Present(order[..i + 1], groups) == Present(order[..i], groups) + (if order[i] in groups then [order[i]] else [])
  {
    assert order[..i + 1][..i] == order[..i];
  }

  lemma OthersSnoc(keys: seq<string>, order: seq<string>, i: nat)
    requires i < |keys|
    ensures Others(keys[..i + 1], order) == Others(keys[..i], order) + (if keys[i] !in order then [keys[i]] else [])
  {
    assert keys[..i + 1][..i] == keys[..i];
  }

  /** The result of `orderedEntries` on a record. */
  function Ordered(g: Grouped, order: seq<string>): seq<Entry>
    requires ValidRecord(g)
  {
    EntriesOf(g, EntryKeys(g, order))
  }

  /** The first loop of `orderedEntries`: the preferred keys the record holds. */
  method PreferredEntries(g: Grouped, order: seq<string>) returns (result: seq<Entry>)
    requires ValidRecord(g)
    ensures result == EntriesOf(g, Present(order, g.groups))
  {
    result := [];
    for i := 0 to |order|
      invariant result == EntriesOf(g, Present(order[..i], g.groups))
    {
      PresentSnoc(order, g.groups, i);
      if order[i] in g.groups {
        EntriesSnoc(g, Present(order[..i], g.groups), order[i]);
        result := result + [(order[i], g.groups[order[i]])];
      }
    }
    assert order[..|order|] == order;
  }

  /** The second loop of `orderedEntries`: the record's other keys, in its own order. */
  method RemainingEntries(g: Grouped, order: seq<string>) returns (result: seq<Entry>)
    requires ValidRecord(g)
    ensures result == EntriesOf(g, Others(g.keys, order))
  {
    result := [];
    for i := 0 to |g.keys|
      invariant forall k :: k in Others(g.keys[..i], order) ==> k in g.groups
      invariant result == EntriesOf(g, Others(g.keys[..i], order))
    {
      OthersSnoc(g.keys, order, i);
      assert g.keys[i] in g.groups;
      if g.keys[i] !in order {
        EntriesSnoc(g, Others(g.keys[..i], order), g.keys[i]);
        result := result + [(g.keys[i], g.groups[g.keys[i]])];
      }
    }
    assert g.keys[..|g.keys|] == g.keys;
  }

  /** `orderedEntries`: the preferred keys the record holds, then its other keys in its own order. */
  method OrderedEntries(g: Grouped, order: seq<string>) returns (result: seq<Entry>)
    requires ValidRecord(g)
    ensures result == Ordered(g, order)
  {
    var front := PreferredEntries(g, order);
    var rest := RemainingEntries(g, order);
    EntriesAppend(g, Present(order, g.groups), Others(g.keys, order));
    result := front + rest;
  }

  lemma {:induction false} PresentDistinct(order: seq<string>, groups: map<string, seq<Source.Page>>)
    requires Distinct(order)
    ensures Distinct(Present(order, groups))
    decreases |order|
  {
    if |order| > 0 {
      var n := |order| - 1;
      assert Distinct(order[..n]) by {
        forall i, j | 0 <= i < j < n ensures order[..n][i] != order[..n][j] {
          assert order[..n][i] == order[i] && order[..n][j] == order[j];
        }
      }
      PresentDistinct(order[..n], groups);
      assert order[n] !in order[..n] by {
        forall i | 0 <= i < n ensures order[..n][i] != order[n] { assert order[..n][i] == order[i]; }
      }
    }
  }

  lemma {:induction false} OthersDistinct(keys: seq<string>, order: seq<string>)
    requires Distinct(keys)
    ensures Distinct(Others(keys, order))
    decreases |keys|
  {
    if |keys| > 0 {
      var n := |keys| - 1;
      assert Distinct(keys[..n]) by {
        forall i, j | 0 <= i < j < n ensures keys[..n][i] != keys[..n][j] {
          assert keys[..n][i] == keys[i] && keys[..n][j] == keys[j];
        }
      }
      OthersDistinct(keys[..n], order);
      assert keys[n] !in keys[..n] by {
        forall i | 0 <= i < n ensures keys[..n][i] != keys[n] { assert keys[..n][i] == keys[i]; }
      }
    }
  }

  /**
   * With a preferred order that repeats no key, `orderedEntries` visits every key of the
   * record exactly once and no other key.
   */
  lemma EntryKeysExactlyOnce(g: Grouped, order: seq<string>)
    requires ValidRecord(g) && Distinct(order)
    ensures Distinct(EntryKeys(g, order))
    ensures forall k :: k in EntryKeys(g, order) <==> k in g.keys
  {
    var a := Present(order, g.groups);
    var b := Others(g.keys, order);
    PresentDistinct(order, g.groups);
    OthersDistinct(g.keys, order);
    forall i, j | 0 <= i < j < |a + b| ensures (a + b)[i] != (a + b)[j] {
      if i < |a| && j >= |a| {
        assert (a + b)[i] in a && (a + b)[j] in b;
      } else if i >= |a| {
        assert (a + b)[i] == b[i - |a|] && (a + b)[j] == b[j - |a|];
      }
    }
  }

  // ---------------------------------------------------------------------------
  // The outline
  // ---------------------------------------------------------------------------

  const DocOrder: seq<string> := ["getting-started", "rest-api", "webhooks", "connectors", "resources"]
  const ApiOrder: seq<string> := ["rest-api", "webhooks"]
  const DocLabels: map<string, string> := LlmText.CategoryLabels
  const ApiLabels: map<string, string> := map["rest-api" := "REST API", "webhooks" := "Webhooks"]

  /** `LABELS[key] ?? key` */
  function Label(labels: map<string, string>, key: string): string {
    if key in labels then labels[key] else key
  }

  /** The groups of a page list in the order both generators print them. */
  function Sections(pages: seq<Source.Page>, order: seq<string>): seq<Entry> {
    Ordered(Grouping(pages), order)
  }

  /** The `formatPages` block of each group of a section, in group order. */
  function FormattedBlocks(entries: seq<Entry>, labels: map<string, string>, names: map<string, string>): (r: seq<string>)
    ensures |r| == |entries|
  {
    seq(|entries|, i requires 0 <= i < |entries| => FormatPages(Label(labels, entries[i].0), entries[i].1, names))
  }

  lemma FormattedBlockAt(entries: seq<Entry>, labels: map<string, string>, names: map<string, string>, i: nat)
    requires i < |entries|
    ensures FormattedBlocks(entries, labels, names)[i] == FormatPages(Label(labels, entries[i].0), entries[i].1, names)
  {
  }

  /** The blocks of a section that `buildOutline` keeps: the non-empty ones. */
  function OutlineBlocks(entries: seq<Entry>, labels: map<string, string>, names: map<string, string>): seq<string> {
    NonEmpty(FormattedBlocks(entries, labels, names))
  }

  const OutlineTitle: string := "# Field Nation Integrations Documentation Outline"

  /** The lines `buildOutline` joins. */
  function OutlineLines(docs: seq<Entry>, api: seq<Entry>, docNames: map<string, string>, apiNames: map<string, string>): seq<string> {
    [OutlineTitle, "", "## Documentation", ""] + OutlineBlocks(docs, DocLabels, docNames)
    + ["## API References", ""] + OutlineBlocks(api, ApiLabels, apiNames)
  }

  /** `buildOutline`, as a function of the two page lists and their name maps. */
  function Outline(docs: seq<Source.Page>, api: seq<Source.Page>, docNames: map<string, string>, apiNames: map<string, string>): string {
    TrimEnd(Join(OutlineLines(Sections(docs, DocOrder), Sections(api, ApiOrder), docNames, apiNames), "\n"))
  }

  /**
   * One section of `buildOutline`: the `formatPages` block of each group, of which the
   * non-empty ones are appended.
   */
  method AppendBlocks(lines: seq<string>, entries: seq<Entry>, labels: map<string, string>, names: map<string, string>)
    returns (r: seq<string>)
    ensures r == lines + OutlineBlocks(entries, labels, names)
  {
    var blocks := FormattedBlocks(entries, labels, names);
    r := KeepNonEmpty(lines, blocks);
  }

  /** `if (block) lines.push(block)` for each block in turn. */
  method KeepNonEmpty(lines: seq<string>, blocks: seq<string>) returns (r: seq<string>)
    ensures r == lines + NonEmpty(blocks)
  {
    r := lines;
    for i := 0 to |blocks|
      invariant r == lines + NonEmpty(blocks[..i])
    {
      var block := blocks[i];
      KeepStep(lines, r, blocks, i, block);
      if block != "" {
        r := r + [block];
      }
    }
    assert blocks[..|blocks|] == blocks;
  }

  /** One turn of the loop keeps block `i` when it is not empty. */
  lemma KeepStep(lines: seq<string>, r: seq<string>, blocks: seq<string>, i: nat, block: string)
    requires i < |blocks| && blocks[i] == block && r == lines + NonEmpty(blocks[..i])
    ensures block != "" ==> r + [block] == lines + NonEmpty(blocks[..i + 1])
    ensures block == "" ==> r == lines + NonEmpty(blocks[..i + 1])
  {
    assert blocks[..i + 1] == blocks[..i] + [block];
    NonEmptySnoc(blocks[..i], block);
  }

  /** `buildOutline` */
  method BuildOutline(docs: seq<Source.Page>, api: seq<Source.Page>, docNames: map<string, string>, apiNames: map<string, string>)
    returns (r: string)
    ensures r == Outline(docs, api, docNames, apiNames)
  {
    var docsGrouped := GroupByCategory(docs);
    var apiGrouped := GroupByCategory(api);
    var lines := [OutlineTitle, "", "## Documentation", ""];
    var docEntries := OrderedEntries(docsGrouped, DocOrder);
    lines := AppendBlocks(lines, docEntries, DocLabels, docNames);
    lines := lines + ["## API References", ""];
    var apiEntries := OrderedEntries(apiGrouped, ApiOrder);
    lines := AppendBlocks(lines, apiEntries, ApiLabels, apiNames);
    r := TrimEnd(Join(lines, "\n"));
  }

  /** Every group of a grouping holds at least one page. */
  lemma SectionsNonEmpty(pages: seq<Source.Page>, order: seq<string>, i: nat)
    requires i < |Sections(pages, order)|
    ensures var e := Sections(pages, order)[i];
      e.0 in KeyOrder(pages) && e.1 == Group(pages, e.0) && |e.1| > 0
  {
    var e := Sections(pages, order)[i];
    var ks := EntryKeys(Grouping(pages), order);
    assert e == (ks[i], Grouping(pages).groups[ks[i]]);
    GroupEmptyIff(pages, e.0);
  }

  lemma AllBlocks(entries: seq<Entry>, labels: map<string, string>, names: map<string, string>)
    requires forall i :: 0 <= i < |entries| ==> |entries[i].1| > 0
    ensures OutlineBlocks(entries, labels, names) == FormattedBlocks(entries, labels, names)
  {
    NonEmptyIdentity(FormattedBlocks(entries, labels, names));
  }

  /** A list that repeats nothing is as long as the set of its elements is large. */
  lemma {:induction false} DistinctCard(xs: seq<string>)
    requires Distinct(xs)
    ensures |set k | k in xs| == |xs|
    decreases |xs|
  {
    if |xs| > 0 {
      var rest := xs[1..];
      assert Distinct(rest) by {
        forall a, b | 0 <= a < b < |rest| ensures rest[a] != rest[b] {
          assert rest[a] == xs[a + 1] && rest[b] == xs[b + 1];
        }
      }
      DistinctCard(rest);
      assert xs[0] !in rest by {
        forall a | 0 <= a < |rest| ensures rest[a] != xs[0] { assert rest[a] == xs[a + 1]; }
      }
      assert xs == [xs[0]] + rest;
      assert (set k | k in xs) == {xs[0]} + (set k | k in rest);
    }
  }

  /** Distinct lists with the same elements have the same length. */
  lemma DistinctSameLength(xs: seq<string>, ys: seq<string>)
    requires Distinct(xs) && Distinct(ys) && forall k :: k in xs <==> k in ys
    ensures |xs| == |ys|
  {
    DistinctCard(xs);
    DistinctCard(ys);
    assert (set k | k in xs) == (set k | k in ys);
  }

  /**
   * The groups both generators print: with a preferred order that repeats no key, every
   * category of the pages exactly once, each with all of its pages in their original order.
   */
  lemma SectionsExactlyOnce(pages: seq<Source.Page>, order: seq<string>)
    requires Distinct(order)
    ensures var es := Sections(pages, order);
      && |es| == |KeyOrder(pages)|
      && (forall i, j :: 0 <= i < j < |es| ==> es[i].0 != es[j].0)
      && (forall k :: k in KeyOrder(pages) ==> exists i :: 0 <= i < |es| && es[i].0 == k)
      && (forall i :: 0 <= i < |es| ==> es[i].0 in KeyOrder(pages) && es[i].1 == Group(pages, es[i].0) && |es[i].1| > 0)
  {
    var es := Sections(pages, order);
    var g := Grouping(pages);
    var ks := EntryKeys(g, order);
    forall i | 0 <= i < |es| ensures es[i].0 in KeyOrder(pages) && es[i].1 == Group(pages, es[i].0) && |es[i].1| > 0 {
      SectionsNonEmpty(pages, order, i);
    }
    EntryKeysExactlyOnce(g, order);
    DistinctSameLength(ks, KeyOrder(pages));
    assert forall i :: 0 <= i < |es| ==> es[i].0 == ks[i];
    forall k | k in KeyOrder(pages) ensures exists i :: 0 <= i < |es| && es[i].0 == k {
      var i :| 0 <= i < |ks| && ks[i] == k;
      assert es[i].0 == k;
    }
  }

  /** The outline prints one block per category, in printing order, listing that category's pages. */
  lemma OutlineOneBlockPerCategory(pages: seq<Source.Page>, order: seq<string>, labels: map<string, string>, names: map<string, string>)
    requires Distinct(order)
    ensures var es := Sections(pages, order);
      var blocks := OutlineBlocks(es, labels, names);
      && |blocks| == |es| == |KeyOrder(pages)|
      && forall i :: 0 <= i < |es| ==>
           blocks[i] == FormatPages(Label(labels, es[i].0), Group(pages, es[i].0), names)
  {
    var es := Sections(pages, order);
    SectionsExactlyOnce(pages, order);
    AllBlocks(es, labels, names);
    forall i | 0 <= i < |es|
      ensures OutlineBlocks(es, labels, names)[i] == FormatPages(Label(labels, es[i].0), Group(pages, es[i].0), names)
    {
      FormattedBlockAt(es, labels, names, i);
    }
  }

  // ---------------------------------------------------------------------------
  // The full text
  // ---------------------------------------------------------------------------

  const FullTitle: string := "# Field Nation Integrations \U{2014} Full Text"

  /** The text of one page under a title, `getLLMText(page, { title })`; it reads the page's file. */
  type PageText = (Source.Page, string) -> string

  /** `- <label> (<page count>)` */
  function TocLine(e: Entry, labels: map<string, string>): string {
    "- " + Label(labels, e.0) + " (" + LlmText.NatString(|e.1|) + ")"
  }

  function TocLines(entries: seq<Entry>, labels: map<string, string>): (r: seq<string>)
    ensures |r| == |entries| && forall i :: 0 <= i < |entries| ==> r[i] == TocLine(entries[i], labels)
  {
    seq(|entries|, i requires 0 <= i < |entries| => TocLine(entries[i], labels))
  }

  /** A section of the table of contents: a blank line, its heading and its lines, or nothing at all. */
  function TocPart(heading: string, toc: seq<string>): seq<string> {
    if |toc| > 0 then ["", heading] + toc else []
  }

  /** The lines of one page: its name, its URL, its text and a separator. */
  function PageSection(p: Source.Page, names: map<string, string>, llm: PageText): seq<string> {
    var name := GetPageName(p.url, names);
    ["### " + name, "URL: " + p.url, "", llm(p, name), "", "---", ""]
  }

  /** Blocks of lines one after the other. */
  function Flatten(blocks: seq<seq<string>>): seq<string>
    decreases |blocks|
  {
    if |blocks| == 0 then [] else Flatten(blocks[..|blocks| - 1]) + blocks[|blocks| - 1]
  }

  function PageSectionList(pages: seq<Source.Page>, names: map<string, string>, llm: PageText): (r: seq<seq<string>>)
    ensures |r| == |pages| && forall i :: 0 <= i < |pages| ==> r[i] == PageSection(pages[i], names, llm)
  {
    seq(|pages|, i requires 0 <= i < |pages| => PageSection(pages[i], names, llm))
  }

  /** The lines of a group's pages, page by page. */
  function PageSections(pages: seq<Source.Page>, names: map<string, string>, llm: PageText): (r: seq<string>)
    ensures |r| == 7 * |pages|
  {
    var blocks := PageSectionList(pages, names, llm);
    if |pages| > 0 then FlattenAt(blocks, 0); Flatten(blocks) else Flatten(blocks)
  }

  /** `## <label> (<page count>)` */
  function GroupHeading(e: Entry, labels: map<string, string>): string {
    "## " + Label(labels, e.0) + " (" + LlmText.NatString(|e.1|) + ")"
  }

  /** The lines of one group: its heading, then each of its pages in order. */
  function GroupSection(e: Entry, labels: map<string, string>, names: map<string, string>, llm: PageText): seq<string> {
    [GroupHeading(e, labels), ""] + PageSections(e.1, names, llm)
  }

  function GroupSections(entries: seq<Entry>, labels: map<string, string>, names: map<string, string>, llm: PageText): seq<string>
    decreases |entries|
  {
    if |entries| == 0 then []
    else
      var n := |entries| - 1;
      GroupSections(entries[..n], labels, names, llm) + GroupSection(entries[n], labels, names, llm)
  }

  /** The lines `buildFull` joins. */
  function FullLines(docs: seq<Entry>, api: seq<Entry>, docNames: map<string, string>, apiNames: map<string, string>, llm: PageText): seq<string> {
    [FullTitle, "", "## Table of Contents"]
    + TocPart("### Documentation", TocLines(docs, DocLabels))
    + TocPart("### API References", TocLines(api, ApiLabels))
    + ["", "## Documentation", ""] + GroupSections(docs, DocLabels, docNames, llm)
    + ["## API References", ""] + GroupSections(api, ApiLabels, apiNames, llm)
  }

  /** `buildFull`, as a function of the page lists, their name maps and the page texts. */
  function FullText(docs: seq<Source.Page>, api: seq<Source.Page>, docNames: map<string, string>, apiNames: map<string, string>, llm: PageText): string {
    TrimEnd(CollapseNewlines(Join(FullLines(Sections(docs, DocOrder), Sections(api, ApiOrder), docNames, apiNames, llm), "\n")))
  }

  /** The table-of-contents lines of one section. */
  method TocOf(entries: seq<Entry>, labels: map<string, string>) returns (toc: seq<string>)
    ensures toc == TocLines(entries, labels)
  {
    toc := [];
    for i := 0 to |entries|
      invariant toc == TocLines(entries[..i], labels)
    {
      var (key, pages) := entries[i];
      var heading := if key in labels then labels[key] else key;
      toc := toc + ["- " + heading + " (" + LlmText.NatString(|pages|) + ")"];
    }
    assert entries[..|entries|] == entries;
  }

  lemma GroupSectionsStep(entries: seq<Entry>, i: nat, labels: map<string, string>, names: map<string, string>, llm: PageText)
    requires i < |entries|
    ensures GroupSections(entries[..i + 1], labels, names, llm)
      == GroupSections(entries[..i], labels, names, llm) + GroupSection(entries[i], labels, names, llm)
  {
    assert entries[..i + 1][..i] == entries[..i];
  }

  lemma FlattenStep(blocks: seq<seq<string>>, j: nat)
    requires j < |blocks|
    ensures Flatten(blocks[..j + 1]) == Flatten(blocks[..j]) + blocks[j]
  {
    assert blocks[..j + 1][..j] == blocks[..j];
  }

  lemma AppendPageStep(lines: seq<string>, before: seq<string>, done: seq<string>, p: Source.Page,
                       names: map<string, string>, llm: PageText)
    requires before == lines + done
    ensures var name := GetPageName(p.url, names);
      before + ["### " + name, "URL: " + p.url, ""] + [llm(p, name), "", "---", ""]
        == lines + (done + PageSection(p, names, llm))
  {
  }

  /** The pages of one group, each with its heading, URL, text and separator. */
  method AppendPages(lines: seq<string>, pages: seq<Source.Page>, names: map<string, string>, llm: PageText)
    returns (r: seq<string>)
    ensures r == lines + PageSections(pages, names, llm)
  {
    ghost var sections := PageSectionList(pages, names, llm);
    r := lines;
    for j := 0 to |pages|
      invariant r == lines + Flatten(sections[..j])
    {
      FlattenStep(sections, j);
      ghost var before := r;
      var page := pages[j];
      var name := GetPageName(page.url, names);
      r := r + ["### " + name, "URL: " + page.url, ""];
      r := r + [llm(page, name), "", "---", ""];
      AppendPageStep(lines, before, Flatten(sections[..j]), page, names, llm);
    }
    assert sections[..|pages|] == sections;
  }

  lemma AppendGroupStep(lines: seq<string>, before: seq<string>, done: seq<string>, e: Entry,
                        labels: map<string, string>, names: map<string, string>, llm: PageText)
    requires before == lines + done
    ensures before + [GroupHeading(e, labels), ""] + PageSections(e.1, names, llm)
      == lines + (done + GroupSection(e, labels, names, llm))
  {
  }

  /** One content section of `buildFull`: each group's heading followed by its pages. */
  method AppendGroups(lines: seq<string>, entries: seq<Entry>, labels: map<string, string>, names: map<string, string>, llm: PageText)
    returns (r: seq<string>)
    ensures r == lines + GroupSections(entries, labels, names, llm)
  {
    r := lines;
    for i := 0 to |entries|
      invariant r == lines + GroupSections(entries[..i], labels, names, llm)
    {
      GroupSectionsStep(entries, i, labels, names, llm);
      ghost var before := r;
      var (key, pages) := entries[i];
      r := r + ["## " + Label(labels, key) + " (" + LlmText.NatString(|pages|) + ")", ""];
      r := AppendPages(r, pages, names, llm);
      AppendGroupStep(lines, before, GroupSections(entries[..i], labels, names, llm), entries[i], labels, names, llm);
    }
    assert entries[..|entries|] == entries;
  }

  /** `if (toc.length) lines.push("", heading, ...toc)` */
  method AppendToc(lines: seq<string>, heading: string, toc: seq<string>) returns (r: seq<string>)
    ensures r == lines + TocPart(heading, toc)
    ensures |toc| == 0 ==> r == lines
  {
    if |toc| > 0 {
      r := lines + (["", heading] + toc);
    } else {
      r := lines;
      assert lines + [] == lines;
    }
  }

  /** `buildFull` */
  method BuildFull(docs: seq<Source.Page>, api: seq<Source.Page>, docNames: map<string, string>, apiNames: map<string, string>, llm: PageText)
    returns (r: string)
    ensures r == FullText(docs, api, docNames, apiNames, llm)
  {
    var docsGrouped := GroupByCategory(docs);
    var apiGrouped := GroupByCategory(api);
    var lines := [FullTitle, "", "## Table of Contents"];
    var docEntries := OrderedEntries(docsGrouped, DocOrder);
    var docToc := TocOf(docEntries, DocLabels);
    var apiEntries := OrderedEntries(apiGrouped, ApiOrder);
    var apiToc := TocOf(apiEntries, ApiLabels);
    lines := AppendToc(lines, "### Documentation", docToc);
    lines := AppendToc(lines, "### API References", apiToc);
    lines := lines + ["", "## Documentation", ""];
    lines := AppendGroups(lines, docEntries, DocLabels, docNames, llm);
    lines := lines + ["## API References", ""];
    lines := AppendGroups(lines, apiEntries, ApiLabels, apiNames, llm);
    r := TrimEnd(CollapseNewlines(Join(lines, "\n")));
  }

  /** In blocks of seven lines each, block `j` starts at line `7 * j`. */
  lemma {:induction false} FlattenAt(blocks: seq<seq<string>>, j: nat)
    requires forall i :: 0 <= i < |blocks| ==> |blocks[i]| == 7
    requires j < |blocks|
    ensures |Flatten(blocks)| == 7 * |blocks|
    ensures Flatten(blocks)[7 * j..7 * j + 7] == blocks[j]
    decreases |blocks|
  {
    var n := |blocks| - 1;
    var pre := blocks[..n];
    if n > 0 {
      FlattenAt(pre, if j < n then j else 0);
    } else {
      assert Flatten(pre) == [];
    }
    if j < n {
      assert pre[j] == blocks[j];
      SliceOfFront(Flatten(pre), blocks[n], 7 * j, 7 * j + 7);
    } else {
      SliceOfBack(Flatten(pre), blocks[n]);
    }
  }

  /** The seven lines of the `j`-th page of a group sit at line `7 * j` of the group's pages. */
  lemma PageSectionAt(pages: seq<Source.Page>, names: map<string, string>, llm: PageText, j: nat)
    requires j < |pages|
    ensures |PageSections(pages, names, llm)| == 7 * |pages|
    ensures PageSections(pages, names, llm)[7 * j..7 * j + 7] == PageSection(pages[j], names, llm)
  {
    FlattenAt(PageSectionList(pages, names, llm), j);
  }

  lemma SliceOfFront(a: seq<string>, b: seq<string>, lo: nat, hi: nat)
    requires lo <= hi <= |a|
    ensures (a + b)[lo..hi] == a[lo..hi]
  {
  }

  lemma SliceOfBack(a: seq<string>, b: seq<string>)
    ensures (a + b)[|a|..|a| + |b|] == b
  {
  }

  /**
   * In the full text every page of a group is printed as its name, its URL, its text and a
   * separator, in the group's order; the group's heading counts its pages.
   */
  lemma GroupSectionShape(e: Entry, labels: map<string, string>, names: map<string, string>, llm: PageText, j: nat)
    requires j < |e.1|
    ensures var lines := GroupSection(e, labels, names, llm);
      var name := GetPageName(e.1[j].url, names);
      && lines[0] == "## " + Label(labels, e.0) + " (" + LlmText.NatString(|e.1|) + ")"
      && lines[2 + 7 * j..2 + 7 * j + 7] == ["### " + name, "URL: " + e.1[j].url, "", llm(e.1[j], name), "", "---", ""]
  {
    PageSectionAt(e.1, names, llm, j);
    var lines := GroupSection(e, labels, names, llm);
    assert lines[2..] == PageSections(e.1, names, llm);
    assert lines[2 + 7 * j..2 + 7 * j + 7] == PageSections(e.1, names, llm)[7 * j..7 * j + 7];
  }

  /** The table of contents has one line per category, giving the size of its group. */
  lemma TocOneLinePerCategory(pages: seq<Source.Page>, order: seq<string>, labels: map<string, string>)
    requires Distinct(order)
    ensures var es := Sections(pages, order);
      var toc := TocLines(es, labels);
      && |toc| == |KeyOrder(pages)|
      && forall i :: 0 <= i < |es| ==>
           toc[i] == "- " + Label(labels, es[i].0) + " (" + LlmText.NatString(|Group(pages, es[i].0)|) + ")"
  {
    SectionsExactlyOnce(pages, order);
  }

  /** A prefix of a text without three newlines in a row has none either. */
  lemma NoTripleInPrefix(s: string, n: nat)
    requires n <= |s| && forall i :: !TripleNewlineAt(s, i)
    ensures forall i :: !TripleNewlineAt(s[..n], i)
  {
    forall i ensures !TripleNewlineAt(s[..n], i) {
      if 0 <= i && i + 2 < n {
        assert s[..n][i] == s[i] && s[..n][i + 1] == s[i + 1] && s[..n][i + 2] == s[i + 2];
        assert !TripleNewlineAt(s, i);
      }
    }
  }

  /** The full text never has three newlines in a row and ends in no whitespace. */
  lemma FullTextClean(docs: seq<Source.Page>, api: seq<Source.Page>, docNames: map<string, string>, apiNames: map<string, string>, llm: PageText)
    ensures var r := FullText(docs, api, docNames, apiNames, llm);
      && (forall i :: !TripleNewlineAt(r, i))
      && (r == "" || !IsSpace(r[|r| - 1]))
  {
    var joined := Join(FullLines(Sections(docs, DocOrder), Sections(api, ApiOrder), docNames, apiNames, llm), "\n");
    var c := CollapseNewlines(joined);
    CollapseLeavesNoTriple(joined);
    NoTripleInPrefix(c, |TrimEnd(c)|);
  }

  // ---------------------------------------------------------------------------
  // Per-page files
  // ---------------------------------------------------------------------------

  const OutputDir: string := "public/llms/"

  /** The file a page's text is written to: the url without one leading slash, under public/llms, as .txt. */
  function OutputPath(url: string): (r: string)
    ensures StartsWith(r, OutputDir) && EndsWith(r, ".txt")
  {
    var relative := if StartsWith(url, "/") then url[1..] else url;
    OutputDir + relative + ".txt"
  }

  /**
   * A page at `/<path>` is written where the site serves `/llms/<path>.txt`, and different
   * page urls get different files.
   */
  lemma OutputPathServed(url: string, other: string)
    requires StartsWith(url, "/") && StartsWith(other, "/")
    ensures "public" + "/llms" + url + ".txt" == OutputPath(url)
    ensures OutputPath(url) == OutputPath(other) ==> url == other
  {
    assert url == "/" + url[1..];
    assert other == "/" + other[1..];
    if OutputPath(url) == OutputPath(other) {
      var a := OutputPath(url);
      assert url[1..] == a[|OutputDir|..|a| - 4];
      assert other[1..] == OutputPath(other)[|OutputDir|..|a| - 4];
    }
  }
}
