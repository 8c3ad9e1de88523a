/**
 * The content sources of the site: the page record shared by every generator, icon
 * resolution, Open Graph image locations, the combined page list and the discovery of
 * the published API versions.
 */
module Source {
  import opened Wrappers
  import opened Text
  import opened Sorting

  /** One heading of a page's table of contents; `url` is its fragment, such as "#setup". */
  datatype TocItem = TocItem(title: string, url: string, depth: int)

  /**
   * A loaded page: its route, its file path under the content root, its slugs and the
   * front-matter fields the generators read.
   */
  datatype Page = Page(
    url: string,
    path: string,
    slugs: seq<string>,
    title: Option<string>,
    description: Option<string>,
    toc: Option<seq<TocItem>>,
    lastModified: Option<string>)

  // ---------------------------------------------------------------------------
  // Icons
  // ---------------------------------------------------------------------------

  /** What an icon name resolves to: nothing, the emoji itself, or the registry's icon of that name. */
  datatype Icon = NoIcon | Emoji(text: string) | Named(name: string)

  /** `^[\u{1F300}-\u{1F9FF}]`: the name starts with a pictograph or emoji. */
  predicate StartsWithEmoji(s: string) {
    |s| > 0 && '\U{1F300}' <= s[0] <= '\U{1F9FF}'
  }

  /** `resolveIcon`, against the set of names the icon registry holds. */
  function ResolveIcon(icon: Option<string>, registry: set<string>): (r: Icon)
    ensures icon.None? || icon.value == "" ==> r == NoIcon
    ensures r.Emoji? <==> icon.Some? && StartsWithEmoji(icon.value)
    ensures r.Emoji? ==> r.text == icon.value
    ensures r.Named? <==> icon.Some? && !StartsWithEmoji(icon.value) && icon.value in registry && icon.value != ""
    ensures r.Named? ==> r.name == icon.value
  {
    if icon.None? || icon.value == "" then NoIcon
    else if StartsWithEmoji(icon.value) then Emoji(icon.value)
    else if icon.value in registry then Named(icon.value)
    else NoIcon
  }

  // ---------------------------------------------------------------------------
  // Page images and page lists
  // ---------------------------------------------------------------------------

  datatype PageImage = PageImage(segments: seq<string>, url: string)

  const ImageRoot: string := "/og/api-references/"

  /** `getPageImage`: the page's slugs followed by "image.png", and the URL they form. */
  function GetPageImage(slugs: seq<string>): PageImage {
    var segments := slugs + ["image.png"];
    PageImage(segments, ImageRoot + Join(segments, "/"))
  }

  /**
   * The image of a page is always a file named image.png under the image root, and when
   * no slug holds a slash the page's slugs can be read back from the URL.
   */
  lemma PageImageLocation(slugs: seq<string>)
    ensures var img := GetPageImage(slugs);
      StartsWith(img.url, ImageRoot) && EndsWith(img.url, "/image.png")
    ensures (forall i :: 0 <= i < |slugs| ==> '/' !in slugs[i]) ==>
      Split(GetPageImage(slugs).url[|ImageRoot|..], '/') == slugs + ["image.png"]
  {
    var img := GetPageImage(slugs);
    var joined := Join(slugs + ["image.png"], "/");
    if |slugs| == 0 {
      assert slugs + ["image.png"] == ["image.png"];
      assert img.url == ImageRoot + "image.png";
      assert img.url == "/og/api-references" + "/image.png";
    } else {
      JoinSnoc(slugs, "image.png", "/");
      assert img.url == ImageRoot + Join(slugs, "/") + "/image.png";
    }
    assert img.url[|ImageRoot|..] == joined;
    assert img.url[..|ImageRoot|] == ImageRoot;
    if forall i :: 0 <= i < |slugs| ==> '/' !in slugs[i] {
      var segments := slugs + ["image.png"];
      assert forall i :: 0 <= i < |segments| ==> '/' !in segments[i] by {
        forall i | 0 <= i < |segments| ensures '/' !in segments[i] {
          if i < |slugs| { assert segments[i] == slugs[i]; }
        }
      }
      SplitJoin(segments, '/');
    }
  }

  /** `getAllPages`: the documentation pages followed by the API-reference pages. */
  function AllPages(docs: seq<Page>, api: seq<Page>): (r: seq<Page>)
    ensures |r| == |docs| + |api|
    ensures r[..|docs|] == docs && r[|docs|..] == api
  {
    docs + api
  }

  // ---------------------------------------------------------------------------
  // Version discovery
  // ---------------------------------------------------------------------------

  const RestApi: string := "rest-api"
  const Webhooks: string := "webhooks"

  /** `^v\d+$` */
  predicate IsVersion(v: string) {
    |v| >= 2 && v[0] == 'v' && forall i :: 1 <= i < |v| ==> '0' <= v[i] <= '9'
  }

  /** The page's slugs start with a versioned section: `[section, "v<digits>", ...]`. */
  predicate ListsVersion(p: Page, section: string) {
    |p.slugs| >= 2 && p.slugs[0] == section && (section == RestApi || section == Webhooks)
    && IsVersion(p.slugs[1])
  }

  /** The versions the pages publish under `section`. */
  function VersionsIn(pages: seq<Page>, section: string): set<string>
    decreases |pages|
  {
    if |pages| == 0 then {}
    else
      var p := pages[|pages| - 1];
      VersionsIn(pages[..|pages| - 1], section) + (if ListsVersion(p, section) then {p.slugs[1]} else {})
  }

  /** A version is published under a section exactly when some page lists it there. */
  lemma {:induction false} VersionsInIff(pages: seq<Page>, section: string, v: string)
    ensures v in VersionsIn(pages, section)
      <==> exists i :: 0 <= i < |pages| && ListsVersion(pages[i], section) && pages[i].slugs[1] == v
    decreases |pages|
  {
    if |pages| > 0 {
      var n := |pages| - 1;
      VersionsInIff(pages[..n], section, v);
      if exists i :: 0 <= i < n && ListsVersion(pages[..n][i], section) && pages[..n][i].slugs[1] == v {
        var i :| 0 <= i < n && ListsVersion(pages[..n][i], section) && pages[..n][i].slugs[1] == v;
        assert pages[i] == pages[..n][i];
      }
      if exists i :: 0 <= i < |pages| && ListsVersion(pages[i], section) && pages[i].slugs[1] == v {
        var i :| 0 <= i < |pages| && ListsVersion(pages[i], section) && pages[i].slugs[1] == v;
        if i < n { assert pages[..n][i] == pages[i]; }
      }
    }
  }

  lemma {:induction false} VersionsInAppend(a: seq<Page>, b: seq<Page>, section: string)
    ensures VersionsIn(a + b, section) == VersionsIn(a, section) + VersionsIn(b, section)
    decreases |b|
  {
    if |b| == 0 {
      assert a + b == a;
    } else {
      var n := |b| - 1;
      assert (a + b)[..|a + b| - 1] == a + b[..n];
      VersionsInAppend(a, b[..n], section);
    }
  }

  /** The versions of all pages are those of the documentation pages and those of the API pages. */
  lemma AllPagesVersions(docs: seq<Page>, api: seq<Page>, section: string)
    ensures VersionsIn(AllPages(docs, api), section) == VersionsIn(docs, section) + VersionsIn(api, section)
  {
    VersionsInAppend(docs, api, section);
  }

  /** A section's version list: exactly the published versions, newest-named first, none twice. */
  ghost predicate VersionList(vs: seq<string>, published: set<string>) {
    (forall v :: v in vs <==> v in published)
    && (forall i, j :: 0 <= i < j < |vs| ==> LexLess(vs[j], vs[i]))
  }

  /** `set.add(v)` on an insertion-ordered set kept as a list. */
  function SetAdd(vs: seq<string>, v: string): (r: seq<string>)
    requires Distinct(vs)
    ensures Distinct(r)
    ensures forall x :: x in r <==> x in vs || x == v
  {
    if v in vs then vs else vs + [v]
  }

  lemma VersionsStep(pages: seq<Page>, i: nat, section: string)
    requires i < |pages|
    ensures VersionsIn(pages[..i + 1], section)
      == VersionsIn(pages[..i], section) + (if ListsVersion(pages[i], section) then {pages[i].slugs[1]} else {})
  {
    assert pages[..i + 1][..i] == pages[..i];
  }

  /** Sorting the collected versions descending gives the section's version list. */
  lemma SortedVersionList(vs: seq<string>, published: set<string>)
    requires Distinct(vs) && forall v :: v in vs <==> v in published
    ensures VersionList(SortDescending(vs), published)
  {
    var r := SortDescending(vs);
    SortDescendingStrict(vs);
    assert forall v :: v in r <==> v in multiset(vs);
  }

  /**
   * `getAvailableVersions`: one pass over all pages collecting the versions of each
   * section into an insertion-ordered set, then each set sorted descending.
   */
  method GetAvailableVersions(docs: seq<Page>, api: seq<Page>) returns (versions: map<string, seq<string>>)
    ensures versions.Keys == {RestApi, Webhooks}
    ensures forall s :: s in versions ==> VersionList(versions[s], VersionsIn(AllPages(docs, api), s))
  {
    var pages := AllPages(docs, api);
    var rest, hooks := CollectVersions(pages);
    SortedVersionList(rest, VersionsIn(pages, RestApi));
    SortedVersionList(hooks, VersionsIn(pages, Webhooks));
    versions := map[RestApi := SortDescending(rest), Webhooks := SortDescending(hooks)];
  }

  /** The pass over the pages: each section's versions in the order they are first seen. */
  method CollectVersions(pages: seq<Page>) returns (rest: seq<string>, hooks: seq<string>)
    ensures Distinct(rest) && Distinct(hooks)
    ensures forall v :: v in rest <==> v in VersionsIn(pages, RestApi)
    ensures forall v :: v in hooks <==> v in VersionsIn(pages, Webhooks)
  {
    rest, hooks := [], [];
    for i := 0 to |pages|
      invariant Distinct(rest) && Distinct(hooks)
      invariant forall v :: v in rest <==> v in VersionsIn(pages[..i], RestApi)
      invariant forall v :: v in hooks <==> v in VersionsIn(pages[..i], Webhooks)
    {
      VersionsStep(pages, i, RestApi);
      VersionsStep(pages, i, Webhooks);
      var slugs := pages[i].slugs;
      if |slugs| >= 2 {
        var section := slugs[0];
        var version := slugs[1];
        if (section == RestApi || section == Webhooks) && IsVersion(version) {
          if section == RestApi {
            rest := SetAdd(rest, version);
          } else {
            hooks := SetAdd(hooks, version);
          }
        }
      }
    }
    assert pages[..|pages|] == pages;
  }
}
