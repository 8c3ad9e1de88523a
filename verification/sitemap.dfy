/**
 * The metadata sitemap: the same static, documentation and API pages as `/sitemap.xml`,
 * as absolute URLs with a date for every entry, each URL kept once.
 */
module Sitemap {
  import opened Wrappers
  import Source
  import Dedup
  import SitemapXml

  type ChangeFreq = SitemapXml.ChangeFreq
  type Priority = SitemapXml.Priority

  /** A date: the build time (`new Date()`), or the one a front-matter value parses to. */
  datatype Moment = BuildTime | Parsed(text: string)

  datatype Entry = Entry(url: string, lastModified: Moment, changeFrequency: ChangeFreq, priority: Priority)

  /** `SITE_URL` */
  function SiteUrl(env: Option<string>): string {
    SitemapXml.BaseUrl(env)
  }

  /** The static pages, relative to the site URL; the home page is the site URL itself. */
  const StaticPaths: seq<string> := [
    "", "/docs", "/api-references/rest-api/v2", "/api-references/webhooks/v3",
    "/resources/faq", "/resources/release-notes"
  ]

  function StaticPages(site: string): (r: seq<Entry>)
    ensures |r| == |StaticPaths|
    ensures forall i :: 0 <= i < |r| ==> r[i].url == site + StaticPaths[i] && r[i].lastModified == BuildTime
  {
    [Entry(site, BuildTime, SitemapXml.Weekly, 100),
     Entry(site + "/docs", BuildTime, SitemapXml.Weekly, 90),
     Entry(site + "/api-references/rest-api/v2", BuildTime, SitemapXml.Weekly, 90),
     Entry(site + "/api-references/webhooks/v3", BuildTime, SitemapXml.Weekly, 85),
     Entry(site + "/resources/faq", BuildTime, SitemapXml.Monthly, 60),
     Entry(site + "/resources/release-notes", BuildTime, SitemapXml.Monthly, 40)]
  }

  /** `"lastModified" in data && data.lastModified ? new Date(…) : new Date()` */
  function LastModifiedOf(p: Source.Page): Moment {
    if p.lastModified.Some? && p.lastModified.value != "" then Parsed(p.lastModified.value) else BuildTime
  }

  function DocEntry(site: string, p: Source.Page): Entry {
    Entry(site + p.url, LastModifiedOf(p), SitemapXml.Weekly, 70)
  }

  function ApiEntry(site: string, p: Source.Page): Entry {
    Entry(site + p.url, LastModifiedOf(p), SitemapXml.Weekly, 75)
  }

  function DocEntries(site: string, docs: seq<Source.Page>): (r: seq<Entry>)
    ensures |r| == |docs| && forall i :: 0 <= i < |docs| ==> r[i] == DocEntry(site, docs[i])
  {
    seq(|docs|, i requires 0 <= i < |docs| => DocEntry(site, docs[i]))
  }

  function ApiEntries(site: string, api: seq<Source.Page>): (r: seq<Entry>)
    ensures |r| == |api| && forall i :: 0 <= i < |api| ==> r[i] == ApiEntry(site, api[i])
  {
    seq(|api|, i requires 0 <= i < |api| => ApiEntry(site, api[i]))
  }

  function Candidates(site: string, docs: seq<Source.Page>, api: seq<Source.Page>): seq<Entry> {
    StaticPages(site) + DocEntries(site, docs) + ApiEntries(site, api)
  }

  function UrlOf(e: Entry): string {
    e.url
  }

  /** `sitemap()`: every candidate entry whose URL no earlier entry had. */
  method Sitemap(env: Option<string>, docs: seq<Source.Page>, api: seq<Source.Page>) returns (r: seq<Entry>)
    ensures r == Dedup.FirstWins(Candidates(SiteUrl(env), docs, api), UrlOf)
  {
    var site := SiteUrl(env);
    r := Dedup.DedupBy(StaticPages(site) + DocEntries(site, docs) + ApiEntries(site, api), UrlOf);
  }

  // ---------------------------------------------------------------------------
  // Properties
  // ---------------------------------------------------------------------------

  /** The static URLs are all different, whatever the site URL. */
  lemma StaticUrlsDistinct(site: string)
    ensures forall i, j :: 0 <= i < j < |StaticPaths| ==> StaticPages(site)[i].url != StaticPages(site)[j].url
  {
    var ps := StaticPaths;
    assert ps[2][16] != ps[3][16];
    forall i, j | 0 <= i < j < |ps| ensures site + ps[i] != site + ps[j] {
      assert (site + ps[i])[|site|..] == ps[i];
      assert (site + ps[j])[|site|..] == ps[j];
    }
  }

  /**
   * The static pages come first, all of them and in order; then the documentation pages
   * and then the API pages, each losing the entries whose URL came earlier.
   */
  lemma EntryOrder(site: string, docs: seq<Source.Page>, api: seq<Source.Page>)
    ensures Dedup.FirstWins(Candidates(site, docs, api), UrlOf)
      == StaticPages(site)
         + Dedup.FirstWinsFrom(DocEntries(site, docs), UrlOf, Dedup.Keys(StaticPages(site), UrlOf))
         + Dedup.FirstWinsFrom(ApiEntries(site, api), UrlOf,
             Dedup.Keys(StaticPages(site), UrlOf) + Dedup.Keys(DocEntries(site, docs), UrlOf))
  {
    var s := StaticPages(site);
    var d := DocEntries(site, docs);
    var a := ApiEntries(site, api);
    assert s + d + a == s + (d + a);
    Dedup.FirstWinsAppend(s, d + a, UrlOf, {});
    StaticUrlsDistinct(site);
    Dedup.FirstWinsDistinct(s, UrlOf, {});
    assert {} + Dedup.Keys(s, UrlOf) == Dedup.Keys(s, UrlOf);
    Dedup.FirstWinsAppend(d, a, UrlOf, Dedup.Keys(s, UrlOf));
  }

  /**
   * No URL is listed twice; every page's absolute URL is listed, and every listed entry
   * is one of the candidates, in their order.
   */
  lemma EntriesUnique(site: string, docs: seq<Source.Page>, api: seq<Source.Page>)
    ensures var r := Dedup.FirstWins(Candidates(site, docs, api), UrlOf);
      && Dedup.Subsequence(r, Candidates(site, docs, api))
      && (forall i, j :: 0 <= i < j < |r| ==> r[i].url != r[j].url)
      && (forall p :: p in docs + api ==> exists i :: 0 <= i < |r| && r[i].url == site + p.url)
  {
    var c := Candidates(site, docs, api);
    var r := Dedup.FirstWins(c, UrlOf);
    Dedup.FirstWinsProperties(c, UrlOf);
    forall i, j | 0 <= i < j < |r| ensures r[i].url != r[j].url {
      assert UrlOf(r[i]) != UrlOf(r[j]);
    }
    forall p | p in docs + api ensures exists i :: 0 <= i < |r| && r[i].url == site + p.url {
      var k :| 0 <= k < |docs + api| && (docs + api)[k] == p;
      var m := |StaticPaths| + k;
      assert UrlOf(c[m]) == site + p.url by {
        if k < |docs| { assert c[m] == DocEntry(site, docs[k]); }
        else { assert c[m] == ApiEntry(site, api[k - |docs|]); }
      }
      assert UrlOf(c[m]) in Dedup.Keys(r, UrlOf);
    }
  }

  /**
   * An entry's date is the page's front-matter date when the page has a non-empty one, and
   * the build time otherwise; the static pages always carry the build time. After the
   * static pages, each entry is the site URL followed by the page's url, changing weekly,
   * at priority 0.7 for documentation and 0.75 for API pages.
   */
  lemma EntryFields(site: string, docs: seq<Source.Page>, api: seq<Source.Page>)
    ensures var c := Candidates(site, docs, api);
      forall i :: 0 <= i < |c| ==>
        && (c[i].lastModified.Parsed? <==>
              |StaticPaths| <= i && (docs + api)[i - |StaticPaths|].lastModified.Some?
              && (docs + api)[i - |StaticPaths|].lastModified.value != "")
        && (c[i].lastModified.Parsed? ==> c[i].lastModified.text == (docs + api)[i - |StaticPaths|].lastModified.value)
        && (|StaticPaths| <= i ==>
              && c[i].url == site + (docs + api)[i - |StaticPaths|].url
              && c[i].changeFrequency == SitemapXml.Weekly
              && c[i].priority == (if i < |StaticPaths| + |docs| then 70 else 75))
  {
    var c := Candidates(site, docs, api);
    forall i | 0 <= i < |c|
      ensures && (c[i].lastModified.Parsed? <==>
              |StaticPaths| <= i && (docs + api)[i - |StaticPaths|].lastModified.Some?
              && (docs + api)[i - |StaticPaths|].lastModified.value != "")
        && (c[i].lastModified.Parsed? ==> c[i].lastModified.text == (docs + api)[i - |StaticPaths|].lastModified.value)
        && (|StaticPaths| <= i ==>
              && c[i].url == site + (docs + api)[i - |StaticPaths|].url
              && c[i].changeFrequency == SitemapXml.Weekly
              && c[i].priority == (if i < |StaticPaths| + |docs| then 70 else 75))
    {
      var n := |StaticPaths|;
      if i < n {
        assert c[i] == StaticPages(site)[i];
      } else if i < n + |docs| {
        assert c[i] == DocEntry(site, docs[i - n]);
      } else {
        assert c[i] == ApiEntry(site, api[i - n - |docs|]);
      }
    }
  }
}
