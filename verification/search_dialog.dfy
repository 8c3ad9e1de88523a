/**
 * The search dialog's presentation of search hits: each hit gets a description (its own,
 * else the start of its content, else its title) and breadcrumbs derived from its URL.
 */
module SearchDialog {
  import opened Wrappers
  import opened Text

  /** A search hit as the search client returns it; any field may be absent. */
  datatype Hit = Hit(url: Option<string>, title: Option<string>, description: Option<string>, content: Option<string>)

  /** A hit as the dialog lists it. */
  datatype Item = Item(hit: Hit, description: Option<string>, breadcrumbs: seq<string>)

  /** What the search client holds: nothing yet, the "empty" marker, or a list of hits. */
  datatype QueryData = NoData | EmptyMarker | Hits(hits: seq<Hit>)

  datatype Results = Empty | Items(items: seq<Item>)

  /** A string is truthy in JavaScript when it is present and not empty. */
  predicate Present(s: Option<string>) {
    s.Some? && s.value != ""
  }

  /** `s.slice(0, n)` */
  function Prefix(s: string, n: nat): (r: string)
    ensures |r| == if |s| < n then |s| else n
    ensures StartsWith(s, r)
  {
    if |s| < n then s else s[..n]
  }

  const ContentPreview: nat := 100

  /** `description || content?.slice(0, 100) || title` */
  function Describe(hit: Hit): Option<string> {
    if Present(hit.description) then hit.description
    else if hit.content.Some? && Present(Some(Prefix(hit.content.value, ContentPreview))) then
      Some(Prefix(hit.content.value, ContentPreview))
    else hit.title
  }

  /**
   * A hit's own description wins; without one the first hundred characters of a non-empty
   * content stand in; without either, the title.
   */
  lemma DescribeCases(hit: Hit)
    ensures Present(hit.description) ==> Describe(hit) == hit.description
    ensures !Present(hit.description) && Present(hit.content) ==>
      Describe(hit).Some? && Describe(hit).value != ""
      && StartsWith(hit.content.value, Describe(hit).value)
      && |Describe(hit).value| == if |hit.content.value| < ContentPreview then |hit.content.value| else ContentPreview
    ensures !Present(hit.description) && !Present(hit.content) ==> Describe(hit) == hit.title
  {
    if !Present(hit.description) && hit.content.Some? {
      var c := hit.content.value;
      assert Present(hit.content) ==> |Prefix(c, ContentPreview)| > 0;
    }
  }

  /** One breadcrumb: two fixed labels, otherwise dashes to spaces with each word capitalised. */
  function Label(seg: string): (r: string)
    ensures seg != "" ==> r != ""
    ensures '-' !in r
  {
    if seg == "docs" then "Docs"
    else if seg == "api-references" then "API Reference"
    else Titleize(seg)
  }

  /** `xs.slice(0, -1)` */
  function DropLast<T>(xs: seq<T>): seq<T> {
    if |xs| == 0 then [] else xs[..|xs| - 1]
  }

  /** The labels of the URL's non-empty segments but the last; none for a missing or empty URL. */
  function Breadcrumbs(url: Option<string>): seq<string> {
    if !Present(url) then []
    else
      var segs := DropLast(Segments(url.value, '/'));
      seq(|segs|, i requires 0 <= i < |segs| => Label(segs[i]))
  }

  /** The breadcrumbs of a page are the labels of the folders above it, in order. */
  lemma BreadcrumbsOfPath(segs: seq<string>)
    requires |segs| >= 1
    requires forall i :: 0 <= i < |segs| ==> segs[i] != "" && '/' !in segs[i]
    ensures var crumbs := Breadcrumbs(Some("/" + Join(segs, "/")));
      |crumbs| == |segs| - 1
      && forall i :: 0 <= i < |crumbs| ==> crumbs[i] == Label(segs[i]) && crumbs[i] != ""
  {
    SegmentsOfPath(segs);
  }

  function ToItem(hit: Hit): (r: Item)
    ensures r.hit == hit
  {
    Item(hit, Describe(hit), Breadcrumbs(hit.url))
  }

  /** `results`: every hit becomes one item, in order; no data or the empty marker gives none. */
  function ResultsOf(data: QueryData): (r: Results)
    ensures r.Empty? <==> !data.Hits?
    ensures r.Items? ==> |r.items| == |data.hits|
    ensures r.Items? ==> forall i :: 0 <= i < |r.items| ==> r.items[i].hit == data.hits[i]
  {
    match data
    case Hits(hits) => Items(seq(|hits|, i requires 0 <= i < |hits| => ToItem(hits[i])))
    case _ => Empty
  }
}
