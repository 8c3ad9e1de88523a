/**
 * The build-time search index: one entry for every page and one for every shallow heading
 * of its table of contents, inserted into an append-only index in page order.
 */
module SearchIndex {
  import opened Wrappers
  import opened Text
  import Source

  /** The `type` field of an entry. */
  datatype EntryType = PageType | HeadingType

  /** One document of the index. */
  datatype Entry = Entry(
    id: string,
    title: Option<string>,
    description: string,
    content: string,
    url: string,
    kind: EntryType,
    section: string)

  /** The index the entries are inserted into; it only ever grows. */
  class SearchDb {
    var entries: seq<Entry>

    constructor ()
      ensures entries == []
    {
      entries := [];
    }

    /** `insert(db, entry)` */
    method Insert(e: Entry)
      modifies this
      ensures entries == old(entries) + [e]
    {
      entries := entries + [e];
    }
  }

  // ---------------------------------------------------------------------------
  // The entries of a page
  // ---------------------------------------------------------------------------

  /** "Documentation" for the pages under /docs, "API Reference" for every other page. */
  function SectionOf(url: string): (r: string)
    ensures r == "Documentation" <==> StartsWith(url, "/docs")
    ensures r == "Documentation" || r == "API Reference"
  {
    if StartsWith(url, "/docs") then "Documentation" else "API Reference"
  }

  /** `description || ""` */
  function DescriptionOf(p: Source.Page): string {
    p.description.GetOr("")
  }

  function PageEntryOf(p: Source.Page): Entry {
    Entry(p.url, p.title, DescriptionOf(p), DescriptionOf(p), p.url, PageType, SectionOf(p.url))
  }

  function HeadingEntryOf(p: Source.Page, item: Source.TocItem): Entry {
    var target := p.url + "#" + item.url;
    Entry(target, Some(item.title), "", item.title, target, HeadingType, SectionOf(p.url))
  }

  /** `toc || []` */
  function TocOf(p: Source.Page): seq<Source.TocItem> {
    p.toc.GetOr([])
  }

  /** The headings that are indexed: those of depth 3 or less, in order. */
  function Shallow(toc: seq<Source.TocItem>): (r: seq<Source.TocItem>)
    ensures |r| <= |toc|
    decreases |toc|
  {
    if |toc| == 0 then []
    else
      var n := |toc| - 1;
      Shallow(toc[..n]) + (if toc[n].depth <= 3 then [toc[n]] else [])
  }

  function HeadingEntries(p: Source.Page, items: seq<Source.TocItem>): (r: seq<Entry>)
    ensures |r| == |items| && forall j :: 0 <= j < |items| ==> r[j] == HeadingEntryOf(p, items[j])
  {
    seq(|items|, j requires 0 <= j < |items| => HeadingEntryOf(p, items[j]))
  }

  /** What one page contributes: its own entry, then one entry per indexed heading. */
  function PageEntries(p: Source.Page): seq<Entry> {
    [PageEntryOf(p)] + HeadingEntries(p, Shallow(TocOf(p)))
  }

  /** The whole index for a list of pages, page by page. */
  function IndexEntries(pages: seq<Source.Page>): seq<Entry>
    decreases |pages|
  {
    if |pages| == 0 then []
    else IndexEntries(pages[..|pages| - 1]) + PageEntries(pages[|pages| - 1])
  }

  // ---------------------------------------------------------------------------
  // Building the index
  // ---------------------------------------------------------------------------

  lemma ShallowStep(toc: seq<Source.TocItem>, j: nat)
    requires j < |toc|
    ensures Shallow(toc[..j + 1]) == Shallow(toc[..j]) + (if toc[j].depth <= 3 then [toc[j]] else [])
  {
    assert toc[..j + 1][..j] == toc[..j];
  }

  lemma HeadingEntriesSnoc(p: Source.Page, items: seq<Source.TocItem>, item: Source.TocItem)
    ensures HeadingEntries(p, items + [item]) == HeadingEntries(p, items) + [HeadingEntryOf(p, item)]
  {
  }

  lemma IndexEntriesStep(pages: seq<Source.Page>, i: nat)
    requires i < |pages|
    ensures IndexEntries(pages[..i + 1]) == IndexEntries(pages[..i]) + PageEntries(pages[i])
  {
    assert pages[..i + 1][..i] == pages[..i];
  }

  /** The entries of one page: its own entry, then its indexed headings. */
  method IndexPage(db: SearchDb, page: Source.Page, count: nat) returns (newCount: nat)
    modifies db
    ensures db.entries == old(db.entries) + PageEntries(page)
    ensures newCount == count + |PageEntries(page)|
  {
    db.Insert(PageEntryOf(page));
    newCount := count + 1;
    var toc := if page.toc.Some? then page.toc.value else [];
    ghost var start := db.entries;
    for j := 0 to |toc|
      invariant db.entries == start + HeadingEntries(page, Shallow(toc[..j]))
      invariant newCount == count + 1 + |Shallow(toc[..j])|
    {
      ShallowStep(toc, j);
      var item := toc[j];
      if item.depth <= 3 {
        HeadingEntriesSnoc(page, Shallow(toc[..j]), item);
        db.Insert(HeadingEntryOf(page, item));
        newCount := newCount + 1;
      }
    }
    assert toc[..|toc|] == toc;
  }

  /** `generateSearchIndex`: every documentation page, then every API page, and the entry count. */
  method GenerateSearchIndex(docs: seq<Source.Page>, api: seq<Source.Page>) returns (db: SearchDb, count: nat)
    ensures fresh(db)
    ensures db.entries == IndexEntries(Source.AllPages(docs, api))
    ensures count == |db.entries|
  {
    db := new SearchDb();
    var allPages := docs + api;
    count := 0;
    for i := 0 to |allPages|
      invariant db.entries == IndexEntries(allPages[..i])
      invariant count == |db.entries|
    {
      IndexEntriesStep(allPages, i);
      count := IndexPage(db, allPages[i], count);
    }
    assert allPages[..|allPages|] == allPages;
  }

  // ---------------------------------------------------------------------------
  // Properties of the index
  // ---------------------------------------------------------------------------

  /** The index of two page lists is the first one's entries followed by the second one's. */
  lemma {:induction false} IndexAppend(a: seq<Source.Page>, b: seq<Source.Page>)
    ensures IndexEntries(a + b) == IndexEntries(a) + IndexEntries(b)
    decreases |b|
  {
    if |b| == 0 {
      assert a + b == a;
    } else {
      var n := |b| - 1;
      var init := b[..n];
      IndexAppend(a, init);
      SplitLast(a, b);
      IndexSnoc(a + init, b[n]);
      IndexSnoc(init, b[n]);
      AppendAssoc(IndexEntries(a), IndexEntries(init), PageEntries(b[n]));
    }
  }

  /** One more page adds its entries at the end. */
  lemma IndexSnoc(pages: seq<Source.Page>, p: Source.Page)
    ensures IndexEntries(pages + [p]) == IndexEntries(pages) + PageEntries(p)
  {
    assert (pages + [p])[..|pages|] == pages;
  }

  lemma SplitLast<T>(a: seq<T>, b: seq<T>)
    requires |b| > 0
    ensures a + b == (a + b[..|b| - 1]) + [b[|b| - 1]] && b == b[..|b| - 1] + [b[|b| - 1]]
  {
  }

  lemma AppendAssoc<T>(x: seq<T>, y: seq<T>, z: seq<T>)
    ensures (x + y) + z == x + (y + z)
  {
  }

  /** Every documentation page's entries come before every API page's entries. */
  lemma DocsBeforeApi(docs: seq<Source.Page>, api: seq<Source.Page>)
    ensures IndexEntries(Source.AllPages(docs, api)) == IndexEntries(docs) + IndexEntries(api)
  {
    IndexAppend(docs, api);
  }

  /** A heading is indexed exactly when its depth is at most 3. */
  lemma {:induction false} ShallowIff(toc: seq<Source.TocItem>, item: Source.TocItem)
    ensures item in Shallow(toc) <==> item in toc && item.depth <= 3
    decreases |toc|
  {
    if |toc| > 0 {
      var n := |toc| - 1;
      ShallowIff(toc[..n], item);
      assert toc == toc[..n] + [toc[n]];
    }
  }

  /**
   * A page's first entry is the page itself (id and url the page's url, description and
   * content its description or ""), and every entry of the page is filed under the
   * page's section.
   */
  lemma PageEntriesLayout(p: Source.Page)
    ensures PageEntries(p)[0].kind == PageType && PageEntries(p)[0].id == p.url
    ensures PageEntries(p)[0].url == p.url && PageEntries(p)[0].title == p.title
    ensures PageEntries(p)[0].content == PageEntries(p)[0].description == p.description.GetOr("")
    ensures forall k :: 0 <= k < |PageEntries(p)| ==> PageEntries(p)[k].section == SectionOf(p.url)
  {
    var hs := HeadingEntries(p, Shallow(TocOf(p)));
    forall k | 0 <= k < |PageEntries(p)| ensures PageEntries(p)[k].section == SectionOf(p.url) {
      if k > 0 { assert PageEntries(p)[k] == hs[k - 1]; }
    }
  }

  /**
   * After the page itself come exactly the heading entries of the headings of depth at
   * most 3, each under `<page url>#<heading url>`.
   */
  lemma PageHeadingEntries(p: Source.Page, e: Entry)
    ensures e in PageEntries(p)[1..] <==>
      exists item :: item in TocOf(p) && item.depth <= 3 && e == HeadingEntryOf(p, item)
  {
    var items := Shallow(TocOf(p));
    assert PageEntries(p)[1..] == HeadingEntries(p, items);
    if e in HeadingEntries(p, items) {
      var item := HeadingEntryItem(p, items, e);
      ShallowIff(TocOf(p), item);
    }
    if exists item :: item in TocOf(p) && item.depth <= 3 && e == HeadingEntryOf(p, item) {
      var item :| item in TocOf(p) && item.depth <= 3 && e == HeadingEntryOf(p, item);
      ShallowIff(TocOf(p), item);
      HeadingEntryFor(p, items, item);
    }
  }

  /** An entry among the heading entries is the entry of one of the headings. */
  lemma HeadingEntryItem(p: Source.Page, items: seq<Source.TocItem>, e: Entry) returns (item: Source.TocItem)
    requires e in HeadingEntries(p, items)
    ensures item in items && e == HeadingEntryOf(p, item)
  {
    var hs := HeadingEntries(p, items);
    var j :| 0 <= j < |hs| && hs[j] == e;
    item := items[j];
  }

  /** Every heading has its entry among the heading entries. */
  lemma HeadingEntryFor(p: Source.Page, items: seq<Source.TocItem>, item: Source.TocItem)
    requires item in items
    ensures HeadingEntryOf(p, item) in HeadingEntries(p, items)
  {
    var j :| 0 <= j < |items| && items[j] == item;
    assert HeadingEntries(p, items)[j] == HeadingEntryOf(p, item);
  }

  /** The number of headings of depth at most 3. */
  function ShallowCount(toc: seq<Source.TocItem>): nat
    decreases |toc|
  {
    if |toc| == 0 then 0 else (if toc[0].depth <= 3 then 1 else 0) + ShallowCount(toc[1..])
  }

  lemma {:induction false} ShallowCountSnoc(toc: seq<Source.TocItem>, item: Source.TocItem)
    ensures ShallowCount(toc + [item]) == ShallowCount(toc) + (if item.depth <= 3 then 1 else 0)
    decreases |toc|
  {
    if |toc| > 0 {
      assert (toc + [item])[1..] == toc[1..] + [item];
      ShallowCountSnoc(toc[1..], item);
    } else {
      assert ([] + [item])[1..] == [];
    }
  }

  lemma {:induction false} ShallowLength(toc: seq<Source.TocItem>)
    ensures |Shallow(toc)| == ShallowCount(toc)
    decreases |toc|
  {
    if |toc| > 0 {
      var n := |toc| - 1;
      ShallowLength(toc[..n]);
      assert toc == toc[..n] + [toc[n]];
      ShallowCountSnoc(toc[..n], toc[n]);
    }
  }

  /** The headings of depth at most 3 over a list of pages. */
  function HeadingTotal(pages: seq<Source.Page>): nat
    decreases |pages|
  {
    if |pages| == 0 then 0 else HeadingTotal(pages[..|pages| - 1]) + ShallowCount(TocOf(pages[|pages| - 1]))
  }

  /** The number of entries of a type. */
  function CountType(entries: seq<Entry>, kind: EntryType): nat
    decreases |entries|
  {
    if |entries| == 0 then 0
    else CountType(entries[..|entries| - 1], kind) + (if entries[|entries| - 1].kind == kind then 1 else 0)
  }

  lemma {:induction false} CountTypeAppend(a: seq<Entry>, b: seq<Entry>, kind: EntryType)
    ensures CountType(a + b, kind) == CountType(a, kind) + CountType(b, kind)
    decreases |b|
  {
    if |b| > 0 {
      var n := |b| - 1;
      assert (a + b)[..|a + b| - 1] == a + b[..n];
      CountTypeAppend(a, b[..n], kind);
    } else {
      assert a + b == a;
    }
  }

  lemma {:induction false} HeadingsCount(p: Source.Page, items: seq<Source.TocItem>)
    ensures CountType(HeadingEntries(p, items), HeadingType) == |items|
    ensures CountType(HeadingEntries(p, items), PageType) == 0
    decreases |items|
  {
    if |items| > 0 {
      var n := |items| - 1;
      HeadingsCount(p, items[..n]);
      assert HeadingEntries(p, items)[..n] == HeadingEntries(p, items[..n]);
    }
  }

  /** One page contributes one page entry and one heading entry per heading of depth at most 3. */
  lemma PageEntriesCounts(p: Source.Page)
    ensures CountType(PageEntries(p), PageType) == 1
    ensures CountType(PageEntries(p), HeadingType) == ShallowCount(TocOf(p))
    ensures |PageEntries(p)| == 1 + ShallowCount(TocOf(p))
  {
    var hs := HeadingEntries(p, Shallow(TocOf(p)));
    HeadingsCount(p, Shallow(TocOf(p)));
    ShallowLength(TocOf(p));
    CountTypeAppend([PageEntryOf(p)], hs, PageType);
    CountTypeAppend([PageEntryOf(p)], hs, HeadingType);
    assert [PageEntryOf(p)][..0] == [];
  }

  /**
   * The count the script reports: one page entry per page, one heading entry per heading
   * of depth at most 3, and nothing else.
   */
  lemma {:induction false} EntryCounts(pages: seq<Source.Page>)
    ensures CountType(IndexEntries(pages), PageType) == |pages|
    ensures CountType(IndexEntries(pages), HeadingType) == HeadingTotal(pages)
    ensures |IndexEntries(pages)| == |pages| + HeadingTotal(pages)
    decreases |pages|
  {
    if |pages| > 0 {
      var n := |pages| - 1;
      EntryCounts(pages[..n]);
      PageEntriesCounts(pages[n]);
      CountTypeAppend(IndexEntries(pages[..n]), PageEntries(pages[n]), PageType);
      CountTypeAppend(IndexEntries(pages[..n]), PageEntries(pages[n]), HeadingType);
    }
  }
}
