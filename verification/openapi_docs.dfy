/**
 * Where the OpenAPI page generator writes each generated page: the file-system slugs of
 * operation ids and tags, the REST/webhook classification of a schema, and the page path
 * returned by the generator's `name` callback.
 */
module OpenApiDocs {
  import opened Wrappers
  import opened Text

  // ---------------------------------------------------------------------------
  // File-system slugs
  // ---------------------------------------------------------------------------

  /** A character a slug may hold: `[a-z0-9-]`. */
  predicate SlugChar(c: char) {
    ('a' <= c <= 'z') || ('0' <= c <= '9') || c == '-'
  }

  predicate IsSlug(s: string) {
    forall i :: 0 <= i < |s| ==> SlugChar(s[i])
  }

  predicate Alnum(c: char) {
    ('a' <= c <= 'z') || ('0' <= c <= '9')
  }

  /** The lower-case letters and digits of `s`, in order. */
  function AlnumOf(s: string): string {
    if |s| == 0 then "" else (if Alnum(s[0]) then [s[0]] else "") + AlnumOf(s[1..])
  }

  /**
   * `replace(/\s+/g, "-")`: every maximal run of white space becomes one dash;
   * `inRun` says the character before `s` was white space already replaced.
   */
  function DashSpaces(s: string, inRun: bool): (r: string)
    ensures forall i :: 0 <= i < |r| ==> !IsSpace(r[i])
    ensures (forall i :: 0 <= i < |s| ==> !IsSpace(s[i])) ==> r == s
  {
    if |s| == 0 then ""
    else if IsSpace(s[0]) then (if inRun then "" else "-") + DashSpaces(s[1..], true)
    else
      var r := [s[0]] + DashSpaces(s[1..], false);
      assert s == [s[0]] + s[1..];
      r
  }

  /** `replace(/[^a-z0-9-]/g, "")`: only the slug characters of `s`, in order. */
  function KeepSlugChars(s: string): (r: string)
    ensures IsSlug(r)
    ensures IsSlug(s) ==> r == s
    ensures |r| <= |s|
  {
    if |s| == 0 then ""
    else
      assert s == [s[0]] + s[1..];
      (if SlugChar(s[0]) then [s[0]] else "") + KeepSlugChars(s[1..])
  }

  /** `sanitizeForFileSystem`: lower case, white-space runs to one dash, then only `[a-z0-9-]`. */
  function Sanitize(s: string): (r: string)
    ensures IsSlug(r)
  {
    KeepSlugChars(DashSpaces(ToLower(s), false))
  }

  lemma {:induction false} AlnumOfKeepSlugChars(s: string)
    ensures AlnumOf(KeepSlugChars(s)) == AlnumOf(s)
  {
    if |s| > 0 {
      AlnumOfKeepSlugChars(s[1..]);
      var head := if SlugChar(s[0]) then [s[0]] else "";
      AlnumOfAppend(head, KeepSlugChars(s[1..]));
    }
  }

  lemma {:induction false} AlnumOfDashSpaces(s: string, inRun: bool)
    ensures AlnumOf(DashSpaces(s, inRun)) == AlnumOf(s)
  {
    if |s| > 0 {
      if IsSpace(s[0]) {
        AlnumOfDashSpaces(s[1..], true);
        AlnumOfAppend(if inRun then "" else "-", DashSpaces(s[1..], true));
      } else {
        AlnumOfDashSpaces(s[1..], false);
        AlnumOfAppend([s[0]], DashSpaces(s[1..], false));
      }
    }
  }

  lemma {:induction false} AlnumOfAppend(a: string, b: string)
    ensures AlnumOf(a + b) == AlnumOf(a) + AlnumOf(b)
  {
    if |a| > 0 {
      AlnumOfAppend(a[1..], b);
      assert (a + b)[0] == a[0] && (a + b)[1..] == a[1..] + b;
    } else {
      assert a + b == b;
    }
  }

  /** Sanitising loses no letter or digit of the lower-cased name, and reorders none. */
  lemma SanitizeKeepsAlnum(s: string)
    ensures AlnumOf(Sanitize(s)) == AlnumOf(ToLower(s))
  {
    AlnumOfKeepSlugChars(DashSpaces(ToLower(s), false));
    AlnumOfDashSpaces(ToLower(s), false);
  }

  /** A slug is its own sanitised form. */
  lemma SanitizeSlug(s: string)
    requires IsSlug(s)
    ensures Sanitize(s) == s
  {
    ToLowerIdentity(s);
    assert forall i :: 0 <= i < |s| ==> !IsSpace(s[i]);
  }

  /** A sanitised name is already a slug: sanitising it again changes nothing. */
  lemma SanitizeIdempotent(s: string)
    ensures Sanitize(Sanitize(s)) == Sanitize(s)
  {
    SanitizeSlug(Sanitize(s));
  }

  // ---------------------------------------------------------------------------
  // API classification
  // ---------------------------------------------------------------------------

  datatype ApiType = Rest | Webhook

  predicate RestMarked(schemaId: string, path: string) {
    Contains(schemaId, "rest") || Contains(schemaId, "v2") || Contains(path, "/rest/")
  }

  predicate WebhookMarked(schemaId: string, path: string) {
    Contains(schemaId, "webhook") || Contains(schemaId, "v3") || Contains(path, "/webhook")
  }

  /** `determineApiType`: REST markers first, then webhook markers, REST by default. */
  function DetermineApiType(schemaId: string, path: string): ApiType {
    if RestMarked(schemaId, path) then Rest
    else if WebhookMarked(schemaId, path) then Webhook
    else Rest
  }

  /** A schema is classified as webhooks exactly when it carries a webhook marker and no REST marker. */
  lemma ApiTypeWebhookIff(schemaId: string, path: string)
    ensures DetermineApiType(schemaId, path) == Webhook
      <==> !RestMarked(schemaId, path) && WebhookMarked(schemaId, path)
  {
  }

  /** The site's two schema ids: "rest_v2" is REST, "webhooks_v3" is webhooks unless the path says REST. */
  lemma SiteSchemasClassified(path: string)
    ensures DetermineApiType("rest_v2", path) == Rest
    ensures !Contains(path, "/rest/") ==> DetermineApiType("webhooks_v3", path) == Webhook
  {
    RestIdMarked();
    WebhooksIdMarked();
  }

  lemma RestIdMarked()
    ensures Contains("rest_v2", "rest")
  {
    var rest := "rest_v2";
    assert rest[0..4] == "rest";
    IndexOfFirst(rest, "rest", 0);
  }

  lemma WebhooksIdMarked()
    ensures Contains("webhooks_v3", "webhook")
    ensures !Contains("webhooks_v3", "rest") && !Contains("webhooks_v3", "v2")
  {
    var hooks := "webhooks_v3";
    assert hooks[0..7] == "webhook";
    IndexOfFirst(hooks, "webhook", 0);
    WebhooksIdUnmarked();
  }

  lemma WebhooksIdUnmarked()
    ensures !Contains("webhooks_v3", "rest") && !Contains("webhooks_v3", "v2")
  {
    WebhooksIdLacks("rest", 0);
    WebhooksIdLacks("v2", 1);
  }

  lemma WebhooksIdLacks(p: string, k: nat)
    requires k < |p| && (p[k] == 'r' || p[k] == '2')
    ensures !Contains("webhooks_v3", p)
  {
    var hooks := "webhooks_v3";
    assert p[k] !in hooks;
    AbsentCharNotContained(hooks, p, k);
  }

  // ---------------------------------------------------------------------------
  // Operation ids and tags
  // ---------------------------------------------------------------------------

  /** An optional string is truthy when present and not empty. */
  predicate Truthy(s: Option<string>) {
    s.Some? && s.value != ""
  }

  /** The last non-empty segment of a path, "endpoint" when it has none. */
  function LastSegment(path: string): (r: string)
    ensures '/' !in r
  {
    Last(Segments(path, '/')).GetOr("endpoint")
  }

  /**
   * `getOperationId`: the sanitised operation id when there is one other than the path;
   * otherwise the sanitised last path segment, a dash and the lower-case method.
   */
  function OperationId(operationId: Option<string>, path: string, httpMethod: string): string {
    if Truthy(operationId) && operationId.value != path then Sanitize(operationId.value)
    else Sanitize(LastSegment(path)) + "-" + ToLower(httpMethod)
  }

  /** An operation id never holds a slash when the method holds none, so it is one path segment. */
  lemma OperationIdOneSegment(operationId: Option<string>, path: string, httpMethod: string)
    requires '/' !in httpMethod
    ensures '/' !in OperationId(operationId, path, httpMethod)
  {
    ToLowerKeepsAbsent(httpMethod, '/');
    var r := OperationId(operationId, path, httpMethod);
    if !(Truthy(operationId) && operationId.value != path) {
      var a := Sanitize(LastSegment(path));
      assert '/' !in a by { assert forall i :: 0 <= i < |a| ==> SlugChar(a[i]); }
      assert r == a + "-" + ToLower(httpMethod);
    } else {
      var a := Sanitize(operationId.value);
      assert forall i :: 0 <= i < |a| ==> SlugChar(a[i]);
    }
  }

  /** An operation derived from its path is named after the last segment and the method. */
  lemma OperationIdFromPath(path: string, httpMethod: string)
    requires IsSlug(LastSegment(path)) && IsSlug(httpMethod)
    ensures OperationId(None, path, httpMethod) == LastSegment(path) + "-" + httpMethod
  {
    SanitizeSlug(LastSegment(path));
    ToLowerIdentity(httpMethod);
  }

  const RestTagPrefix: string := "work-orders."
  const WebhookTagPrefix: string := "webhooks."

  /**
   * `cleanTagName`: drops "work-orders." from a REST tag or "webhooks." from a webhook
   * tag when the tag starts with it (through `replace`, which removes the first occurrence).
   */
  function CleanTagName(tag: string, apiType: ApiType): (r: string)
    ensures apiType == Rest && StartsWith(tag, RestTagPrefix) ==> r == tag[|RestTagPrefix|..]
    ensures apiType == Webhook && StartsWith(tag, WebhookTagPrefix) ==> r == tag[|WebhookTagPrefix|..]
    ensures !StartsWith(tag, RestTagPrefix) && !StartsWith(tag, WebhookTagPrefix) ==> r == tag
    ensures apiType == Rest && !StartsWith(tag, RestTagPrefix) ==> r == tag
    ensures apiType == Webhook && !StartsWith(tag, WebhookTagPrefix) ==> r == tag
  {
    if apiType == Rest && StartsWith(tag, RestTagPrefix) then
      StripLeading(tag, RestTagPrefix);
      Replace(tag, RestTagPrefix, "")
    else if apiType == Webhook && StartsWith(tag, WebhookTagPrefix) then
      StripLeading(tag, WebhookTagPrefix);
      Replace(tag, WebhookTagPrefix, "")
    else tag
  }

  /** Replacing a prefix the string starts with by nothing drops that prefix. */
  lemma StripLeading(s: string, p: string)
    requires StartsWith(s, p)
    ensures Replace(s, p, "") == s[|p|..]
  {
    assert OccursAt(s, p, 0);
    ReplaceLiteral(s, p, "");
    assert s[..0] == "";
  }

  // ---------------------------------------------------------------------------
  // Page paths
  // ---------------------------------------------------------------------------

  /** The directory all API reference pages are generated under. */
  const ApiRoot: string := "api-references"

  /** The directory of each API type's pages under api-references. */
  function SectionDir(t: ApiType): string {
    match t
    case Rest => "rest-api"
    case Webhook => "webhooks"
  }

  /** The only published version of each API type. */
  function VersionDir(t: ApiType): string {
    match t
    case Rest => "v2"
    case Webhook => "v3"
  }

  /** `generateOperationPath`: section, version, sanitised tag and operation id under api-references. */
  function OperationPath(schemaId: string, path: string, httpMethod: string, tag: string, operationId: Option<string>): string {
    var t := DetermineApiType(schemaId, path);
    ApiRoot + "/" + SectionDir(t) + "/" + VersionDir(t) + "/"
      + Sanitize(CleanTagName(tag, t)) + "/" + OperationId(operationId, path, httpMethod)
  }

  /**
   * An operation page lies exactly five directories deep: api-references, its section,
   * its version, its tag and its operation id, and splitting the path at '/' gives them back.
   */
  lemma OperationPathSegments(schemaId: string, path: string, httpMethod: string, tag: string, operationId: Option<string>)
    requires '/' !in httpMethod
    ensures var t := DetermineApiType(schemaId, path);
      Split(OperationPath(schemaId, path, httpMethod, tag, operationId), '/')
        == [ApiRoot, SectionDir(t), VersionDir(t), Sanitize(CleanTagName(tag, t)), OperationId(operationId, path, httpMethod)]
  {
    var t := DetermineApiType(schemaId, path);
    var tagSlug := Sanitize(CleanTagName(tag, t));
    var op := OperationId(operationId, path, httpMethod);
    OperationIdOneSegment(operationId, path, httpMethod);
    assert '/' !in tagSlug by { assert forall i :: 0 <= i < |tagSlug| ==> SlugChar(tagSlug[i]); }
    DirsSlashFree(t);
    SplitFive(ApiRoot, SectionDir(t), VersionDir(t), tagSlug, op);
  }

  /** The fixed directory names hold no slash. */
  lemma DirsSlashFree(t: ApiType)
    ensures '/' !in ApiRoot && '/' !in SectionDir(t) && '/' !in VersionDir(t)
  {
    match t
    case Rest =>
      assert '/' !in "rest-api" && '/' !in "v2";
    case Webhook =>
      assert '/' !in "webhooks" && '/' !in "v3";
  }

  /** Five slash-free names joined with slashes split back into the five. */
  lemma SplitFive(a: string, b: string, c: string, d: string, e: string)
    requires '/' !in a && '/' !in b && '/' !in c && '/' !in d && '/' !in e
    ensures Split(a + "/" + b + "/" + c + "/" + d + "/" + e, '/') == [a, b, c, d, e]
  {
    SplitFour(a, b, c, d);
    SplitSnoc(a + "/" + b + "/" + c + "/" + d, '/', e);
  }

  /** What the generator hands the `name` callback: an operation, or another output that may carry a name. */
  datatype Output =
    | Operation(schemaId: string, path: string, httpMethod: string, tags: Option<seq<string>>, operationId: Option<string>)
    | Other(name: Option<string>)

  /** `tags?.[0] ?? "api"` */
  function PrimaryTag(tags: Option<seq<string>>): string {
    if tags.Some? && |tags.value| > 0 then tags.value[0] else "api"
  }

  /** The generator's `name` callback: the page path of one generated output. */
  function OutputName(o: Output): string {
    match o
    case Other(name) =>
      if name.Some? then ApiRoot + "/" + SectionDir(Webhook) + "/" + VersionDir(Webhook) + "/" + Sanitize(name.value)
      else "api"
    case Operation(schemaId, path, httpMethod, tags, operationId) =>
      OperationPath(schemaId, path, httpMethod, PrimaryTag(tags), operationId)
  }

  /** Every operation page lands in the directory of its API type, under an untagged "api" tag when it has none. */
  lemma OperationOutputPlacement(schemaId: string, path: string, httpMethod: string, operationId: Option<string>)
    requires '/' !in httpMethod
    ensures var t := DetermineApiType(schemaId, path);
      Split(OutputName(Operation(schemaId, path, httpMethod, None, operationId)), '/')
        == [ApiRoot, SectionDir(t), VersionDir(t), "api", OperationId(operationId, path, httpMethod)]
  {
    var t := DetermineApiType(schemaId, path);
    OperationPathSegments(schemaId, path, httpMethod, "api", operationId);
    assert CleanTagName("api", t) == "api";
    SanitizeSlug("api");
  }

  /** Any other output with a name is a webhook page in the webhook directory; one without a name is "api". */
  lemma OtherOutputPlacement(name: Option<string>)
    ensures name.None? ==> OutputName(Other(name)) == "api"
    ensures name.Some? ==>
      Split(OutputName(Other(name)), '/') == [ApiRoot, SectionDir(Webhook), VersionDir(Webhook), Sanitize(name.value)]
  {
    if name.Some? {
      var n := Sanitize(name.value);
      assert '/' !in n by { assert forall i :: 0 <= i < |n| ==> SlugChar(n[i]); }
      SplitFour(ApiRoot, SectionDir(Webhook), VersionDir(Webhook), n);
    }
  }

  /** Four slash-free names joined with slashes split back into the four. */
  lemma SplitFour(a: string, b: string, c: string, d: string)
    requires '/' !in a && '/' !in b && '/' !in c && '/' !in d
    ensures Split(a + "/" + b + "/" + c + "/" + d, '/') == [a, b, c, d]
  {
    SplitNoSep(a, '/');
    SplitSnoc(a, '/', b);
    SplitSnoc(a + "/" + b, '/', c);
    SplitSnoc(a + "/" + b + "/" + c, '/', d);
  }
}
