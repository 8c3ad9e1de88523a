/**
 * The `/sitemap.xml` route: the static pages, the documentation pages and the API pages,
 * each path kept once, written as `<url>` elements of a sitemaps.org 0.9 `urlset`.
 */
module SitemapXml {
  import opened Wrappers
  import opened Text
  import Source
  import Dedup

  /** How often a page is expected to change. */
  datatype ChangeFreq = Always | Hourly | Daily | Weekly | Monthly | Yearly | Never

  function ChangeFreqText(c: ChangeFreq): string {
    match c
    case Always => "always"
    case Hourly => "hourly"
    case Daily => "daily"
    case Weekly => "weekly"
    case Monthly => "monthly"
    case Yearly => "yearly"
    case Never => "never"
  }

  /**
   * A priority between 0 and 1 in hundredths (0.75 is 75), as the number literals of
   * the source.
   */
  type Priority = h: nat | h <= 100

  function Digit(d: nat): char
    requires d < 10
  {
    (d + '0' as int) as char
  }

  /** How a priority prints in a template string: "1", "0.9", "0.85", "0". */
  function PriorityText(h: Priority): string {
    if h == 100 then "1"
    else if h == 0 then "0"
    else if h % 10 == 0 then "0." + [Digit(h / 10)]
    else "0." + [Digit(h / 10), Digit(h % 10)]
  }

  /** An entry of the sitemap; `lastModified` is the page's front-matter value, if any. */
  datatype PageEntry = PageEntry(path: string, change: ChangeFreq, priority: Priority, lastModified: Option<string>)

  const DefaultSiteUrl: string := "https://developers.fieldnation.com"

  /** `NEXT_PUBLIC_SITE_URL ?? "https://developers.fieldnation.com"` */
  function BaseUrl(env: Option<string>): string {
    env.GetOr(DefaultSiteUrl)
  }

  const StaticPages: seq<PageEntry> := [
    PageEntry("/", Weekly, 100, None),
    PageEntry("/docs", Weekly, 90, None),
    PageEntry("/api-references/rest-api/v2", Weekly, 90, None),
    PageEntry("/api-references/webhooks/v3", Weekly, 85, None),
    PageEntry("/resources/faq", Monthly, 60, None),
    PageEntry("/resources/release-notes", Monthly, 40, None)
  ]

  /** `data.lastModified ? … : undefined`: an empty string counts as absent. */
  function Defined(v: Option<string>): Option<string> {
    if v.Some? && v.value != "" then v else None
  }

  function DocEntry(p: Source.Page): PageEntry {
    PageEntry(p.url, Weekly, 70, Defined(p.lastModified))
  }

  function ApiEntry(p: Source.Page): PageEntry {
    PageEntry(p.url, Weekly, 75, Defined(p.lastModified))
  }

  function DocEntries(docs: seq<Source.Page>): (r: seq<PageEntry>)
    ensures |r| == |docs| && forall i :: 0 <= i < |docs| ==> r[i] == DocEntry(docs[i])
  {
    seq(|docs|, i requires 0 <= i < |docs| => DocEntry(docs[i]))
  }

  function ApiEntries(api: seq<Source.Page>): (r: seq<PageEntry>)
    ensures |r| == |api| && forall i :: 0 <= i < |api| ==> r[i] == ApiEntry(api[i])
  {
    seq(|api|, i requires 0 <= i < |api| => ApiEntry(api[i]))
  }

  /** Every entry before removing repeated paths: static, then documentation, then API. */
  function Candidates(docs: seq<Source.Page>, api: seq<Source.Page>): seq<PageEntry> {
    StaticPages + DocEntries(docs) + ApiEntries(api)
  }

  function PathOf(e: PageEntry): string {
    e.path
  }

  /** The entries of the sitemap: each path once, its first entry winning. */
  method SitemapEntries(docs: seq<Source.Page>, api: seq<Source.Page>) returns (r: seq<PageEntry>)
    ensures r == Dedup.FirstWins(Candidates(docs, api), PathOf)
  {
    r := Dedup.DedupBy(StaticPages + DocEntries(docs) + ApiEntries(api), PathOf);
  }

  // ---------------------------------------------------------------------------
  // XML
  // ---------------------------------------------------------------------------

  /** The path without one trailing slash, except for the root path. */
  function NormalizedPath(path: string): (r: string)
    ensures r == path <==> path == "/" || !EndsWith(path, "/")
    ensures r != path ==> r + "/" == path
  {
    if EndsWith(path, "/") && path != "/" then path[..|path| - 1] else path
  }

  /** `toISOString` of the date a front-matter value parses to. */
  type IsoDate = string -> string

  /** `<indent><name>text</name>` */
  function Tag(indent: string, name: string, text: string): string {
    indent + "<" + name + ">" + text + "</" + name + ">"
  }

  /** The lines of one `<url>` element; the `<lastmod>` line only when a date is known. */
  function UrlLines(baseUrl: string, e: PageEntry, iso: IsoDate): seq<string> {
    ["  <url>",
     Tag("    ", "loc", baseUrl + NormalizedPath(e.path)),
     Tag("    ", "changefreq", ChangeFreqText(e.change)),
     Tag("    ", "priority", PriorityText(e.priority))]
    + (if e.lastModified.Some? then [Tag("  ", "lastmod", iso(e.lastModified.value))] else [])
    + ["  </url>"]
  }

  /** `pageXml` */
  function PageXml(baseUrl: string, e: PageEntry, iso: IsoDate): string {
    Join(UrlLines(baseUrl, e, iso), "\n")
  }

  const XmlDeclaration: string := "<?xml version=\"1.0\" encoding=\"UTF-8\"?>"
  /** The namespace of version 0.9 of the sitemaps.org protocol. */
  const SitemapNamespace: string := "http://www.sitemaps.org/schemas/sitemap/0.9"
  const UrlsetOpen: string := "<urlset xmlns=\"" + SitemapNamespace + "\">"
  const UrlsetClose: string := "</urlset>"

  /** The `<url>` elements, one per entry, joined by newlines. */
  function Urls(baseUrl: string, es: seq<PageEntry>, iso: IsoDate): (r: string)
    ensures |es| == 0 ==> r == ""
  {
    Join(seq(|es|, i requires 0 <= i < |es| => PageXml(baseUrl, es[i], iso)), "\n")
  }

  function Document(baseUrl: string, es: seq<PageEntry>, iso: IsoDate): string {
    XmlDeclaration + "\n" + UrlsetOpen + "\n" + Urls(baseUrl, es, iso) + "\n" + UrlsetClose
  }

  /** `GET /sitemap.xml`: the document over the entries that survive the removal of repeats. */
  method Get(env: Option<string>, docs: seq<Source.Page>, api: seq<Source.Page>, iso: IsoDate) returns (body: string)
    ensures body == Document(BaseUrl(env), Dedup.FirstWins(Candidates(docs, api), PathOf), iso)
  {
    var baseUrl := BaseUrl(env);
    var entries := SitemapEntries(docs, api);
    body := XmlDeclaration + "\n" + UrlsetOpen + "\n" + Urls(baseUrl, entries, iso) + "\n" + UrlsetClose;
  }

  // ---------------------------------------------------------------------------
  // Properties
  // ---------------------------------------------------------------------------

  /** The static paths are all different. */
  lemma StaticPathsDistinct()
    ensures forall i, j :: 0 <= i < j < |StaticPages| ==> StaticPages[i].path != StaticPages[j].path
  {
    var ps := ["/", "/docs", "/api-references/rest-api/v2", "/api-references/webhooks/v3",
               "/resources/faq", "/resources/release-notes"];
    assert forall i :: 0 <= i < 6 ==> StaticPages[i].path == ps[i];
    assert ps[2][16] != ps[3][16];
  }

  /**
   * After the static pages, each candidate is a page under its own path, changing weekly,
   * at priority 0.7 for documentation and 0.75 for API pages, with a date exactly when its
   * front matter has a non-empty one; the static pages have no date.
   */
  lemma EntryFields(docs: seq<Source.Page>, api: seq<Source.Page>)
    ensures var c := Candidates(docs, api);
      var n := |StaticPages|;
      && |c| == n + |docs| + |api|
      && (forall i :: 0 <= i < n ==> c[i].lastModified.None?)
      && (forall i :: n <= i < |c| ==>
            && c[i].path == (docs + api)[i - n].url
            && c[i].change == Weekly
            && c[i].priority == (if i < n + |docs| then 70 else 75)
            && (c[i].lastModified.Some? <==>
                  (docs + api)[i - n].lastModified.Some? && (docs + api)[i - n].lastModified.value != ""))
  {
    var c := Candidates(docs, api);
    var n := |StaticPages|;
    forall i | 0 <= i < |c|
      ensures i < n ==> c[i].lastModified.None?
      ensures n <= i ==>
        && c[i].path == (docs + api)[i - n].url
        && c[i].change == Weekly
        && c[i].priority == (if i < n + |docs| then 70 else 75)
        && (c[i].lastModified.Some? <==>
              (docs + api)[i - n].lastModified.Some? && (docs + api)[i - n].lastModified.value != "")
    {
      if i < n {
        assert c[i] == StaticPages[i];
      } else if i < n + |docs| {
        assert c[i] == DocEntry(docs[i - n]);
      } else {
        assert c[i] == ApiEntry(api[i - n - |docs|]);
      }
    }
  }

  /**
   * The sitemap lists every static page first, in order; then the documentation pages
   * and then the API pages, each losing the entries whose path came earlier.
   */
  lemma EntryOrder(docs: seq<Source.Page>, api: seq<Source.Page>)
    ensures Dedup.FirstWins(Candidates(docs, api), PathOf)
      == StaticPages
         + Dedup.FirstWinsFrom(DocEntries(docs), PathOf, Dedup.Keys(StaticPages, PathOf))
         + Dedup.FirstWinsFrom(ApiEntries(api), PathOf,
             Dedup.Keys(StaticPages, PathOf) + Dedup.Keys(DocEntries(docs), PathOf))
  {
    var s := StaticPages;
    var d := DocEntries(docs);
    var a := ApiEntries(api);
    assert s + d + a == s + (d + a);
    Dedup.FirstWinsAppend(s, d + a, PathOf, {});
    StaticPathsDistinct();
    Dedup.FirstWinsDistinct(s, PathOf, {});
    assert {} + Dedup.Keys(s, PathOf) == Dedup.Keys(s, PathOf);
    Dedup.FirstWinsAppend(d, a, PathOf, Dedup.Keys(s, PathOf));
  }

  /** No path is listed twice, and every path of every candidate is listed. */
  lemma EntriesUnique(docs: seq<Source.Page>, api: seq<Source.Page>)
    ensures var r := Dedup.FirstWins(Candidates(docs, api), PathOf);
      && Dedup.Subsequence(r, Candidates(docs, api))
      && (forall i, j :: 0 <= i < j < |r| ==> r[i].path != r[j].path)
      && (forall p :: p in docs ==> exists i :: 0 <= i < |r| && r[i].path == p.url)
      && (forall p :: p in api ==> exists i :: 0 <= i < |r| && r[i].path == p.url)
  {
    var c := Candidates(docs, api);
    var r := Dedup.FirstWins(c, PathOf);
    Dedup.FirstWinsProperties(c, PathOf);
    forall i, j | 0 <= i < j < |r| ensures r[i].path != r[j].path {
      assert PathOf(r[i]) != PathOf(r[j]);
    }
    forall p | p in docs ensures exists i :: 0 <= i < |r| && r[i].path == p.url {
      var k :| 0 <= k < |docs| && docs[k] == p;
      assert c[|StaticPages| + k] == DocEntry(p);
      assert PathOf(c[|StaticPages| + k]) in Dedup.Keys(r, PathOf);
    }
    forall p | p in api ensures exists i :: 0 <= i < |r| && r[i].path == p.url {
      var k :| 0 <= k < |api| && api[k] == p;
      assert c[|StaticPages| + |docs| + k] == ApiEntry(p);
      assert PathOf(c[|StaticPages| + |docs| + k]) in Dedup.Keys(r, PathOf);
    }
  }

  lemma TagSingleLine(indent: string, name: string, text: string)
    requires '\n' !in indent && '\n' !in name && '\n' !in text
    ensures '\n' !in Tag(indent, name, text)
  {
  }

  lemma FieldsSingleLine(e: PageEntry)
    ensures '\n' !in ChangeFreqText(e.change) && '\n' !in PriorityText(e.priority)
    ensures '\n' !in NormalizedPath(e.path) || '\n' in e.path
  {
    assert NormalizedPath(e.path) == e.path[..|NormalizedPath(e.path)|];
  }

  lemma HeaderSingleLine()
    ensures '\n' !in XmlDeclaration && '\n' !in UrlsetOpen && '\n' !in UrlsetClose
  {
    forall i | 0 <= i < |XmlDeclaration| ensures XmlDeclaration[i] != '\n' { }
    forall i | 0 <= i < |SitemapNamespace| ensures SitemapNamespace[i] != '\n' { }
  }

  /** A `<url>` element line by line: five lines, and a sixth, `<lastmod>`, exactly when a date is known. */
  lemma PageXmlLines(baseUrl: string, e: PageEntry, iso: IsoDate)
    requires '\n' !in baseUrl && '\n' !in e.path
    requires e.lastModified.Some? ==> '\n' !in iso(e.lastModified.value)
    ensures Split(PageXml(baseUrl, e, iso), '\n') == UrlLines(baseUrl, e, iso)
    ensures |UrlLines(baseUrl, e, iso)| == if e.lastModified.Some? then 6 else 5
    ensures UrlLines(baseUrl, e, iso)[1] == Tag("    ", "loc", baseUrl + NormalizedPath(e.path))
    ensures UrlLines(baseUrl, e, iso)[4] == if e.lastModified.Some? then Tag("  ", "lastmod", iso(e.lastModified.value)) else "  </url>"
  {
    UrlLinesSingle(baseUrl, e, iso);
    SplitJoin(UrlLines(baseUrl, e, iso), '\n');
  }

  lemma UrlLinesSingle(baseUrl: string, e: PageEntry, iso: IsoDate)
    requires '\n' !in baseUrl && '\n' !in e.path
    requires e.lastModified.Some? ==> '\n' !in iso(e.lastModified.value)
    ensures forall k :: 0 <= k < |UrlLines(baseUrl, e, iso)| ==> '\n' !in UrlLines(baseUrl, e, iso)[k]
  {
    FieldsSingleLine(e);
    TagSingleLine("    ", "loc", baseUrl + NormalizedPath(e.path));
    TagSingleLine("    ", "changefreq", ChangeFreqText(e.change));
    TagSingleLine("    ", "priority", PriorityText(e.priority));
    if e.lastModified.Some? {
      TagSingleLine("  ", "lastmod", iso(e.lastModified.value));
    }
  }

  /** The lines of each entry's `<url>` element. */
  function UrlBlocks(baseUrl: string, es: seq<PageEntry>, iso: IsoDate): (r: seq<seq<string>>)
    ensures |r| == |es| && forall i :: 0 <= i < |es| ==> r[i] == UrlLines(baseUrl, es[i], iso)
  {
    seq(|es|, i requires 0 <= i < |es| => UrlLines(baseUrl, es[i], iso))
  }

  /** All lines of the `<url>` elements of a list of entries, in order. */
  function AllUrlLines(baseUrl: string, es: seq<PageEntry>, iso: IsoDate): seq<string> {
    Concat(UrlBlocks(baseUrl, es, iso))
  }

  lemma UrlsAsLines(baseUrl: string, es: seq<PageEntry>, iso: IsoDate)
    requires |es| > 0
    ensures Urls(baseUrl, es, iso) == Join(AllUrlLines(baseUrl, es, iso), "\n")
  {
    var bs := UrlBlocks(baseUrl, es, iso);
    forall i | 0 <= i < |bs| ensures |bs[i]| > 0 {
      assert bs[i][0] == "  <url>";
    }
    JoinConcat(bs, "\n");
    assert seq(|es|, i requires 0 <= i < |es| => PageXml(baseUrl, es[i], iso))
        == seq(|bs|, i requires 0 <= i < |bs| => Join(bs[i], "\n"));
  }

  /** No line of the document can hold a newline. */
  ghost predicate SingleLineFields(baseUrl: string, es: seq<PageEntry>, iso: IsoDate) {
    '\n' !in baseUrl
    && forall i :: 0 <= i < |es| ==>
         '\n' !in es[i].path && (es[i].lastModified.Some? ==> '\n' !in iso(es[i].lastModified.value))
  }

  lemma AllUrlLinesSingle(baseUrl: string, es: seq<PageEntry>, iso: IsoDate)
    requires SingleLineFields(baseUrl, es, iso)
    ensures forall k :: 0 <= k < |AllUrlLines(baseUrl, es, iso)| ==> '\n' !in AllUrlLines(baseUrl, es, iso)[k]
  {
    var bs := UrlBlocks(baseUrl, es, iso);
    forall i, j | 0 <= i < |bs| && 0 <= j < |bs[i]| ensures '\n' !in bs[i][j] {
      UrlLinesSingle(baseUrl, es[i], iso);
    }
    ConcatAvoids(bs, '\n');
  }

  /**
   * The document line by line: the XML declaration, the `urlset` opening tag, the lines of
   * each entry's `<url>` element in order (a single empty line when there is no entry),
   * and the closing tag.
   */
  lemma DocumentLines(baseUrl: string, es: seq<PageEntry>, iso: IsoDate)
    requires SingleLineFields(baseUrl, es, iso)
    ensures Split(Document(baseUrl, es, iso), '\n')
      == [XmlDeclaration, UrlsetOpen] + (if |es| == 0 then [""] else AllUrlLines(baseUrl, es, iso)) + [UrlsetClose]
  {
    var body := if |es| == 0 then [""] else AllUrlLines(baseUrl, es, iso);
    var head := [XmlDeclaration, UrlsetOpen];
    var ls := head + body + [UrlsetClose];
    if |es| > 0 {
      UrlsAsLines(baseUrl, es, iso);
      AllUrlLinesSingle(baseUrl, es, iso);
      assert |body| > 0 by { assert |UrlBlocks(baseUrl, es, iso)[0]| > 0; }
    }
    DocumentJoin(Urls(baseUrl, es, iso), body);
    HeaderSingleLine();
    forall k | 0 <= k < |ls| ensures '\n' !in ls[k] {
      if 2 <= k < |ls| - 1 { assert ls[k] == body[k - 2]; }
    }
    SplitJoin(ls, '\n');
  }

  lemma DocumentJoin(urls: string, body: seq<string>)
    requires |body| > 0 && urls == Join(body, "\n")
    ensures XmlDeclaration + "\n" + UrlsetOpen + "\n" + urls + "\n" + UrlsetClose
      == Join([XmlDeclaration, UrlsetOpen] + body + [UrlsetClose], "\n")
  {
    var head := [XmlDeclaration, UrlsetOpen];
    JoinAppend(head, body, "\n");
    JoinAppend(head + body, [UrlsetClose], "\n");
    assert Join(head, "\n") == XmlDeclaration + "\n" + UrlsetOpen;
  }
}
