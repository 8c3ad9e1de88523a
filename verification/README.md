# Developer-documentation site: verified model of its transformations

The site is a Next.js documentation portal built with fumadocs. It serves documentation pages and
REST/webhook API references. Around the React presentation sit small, deterministic
transformations, and this project models those and proves properties about them:

- the build scripts that name the generated OpenAPI pages (`OpenApiDocs`), write the search index
  (`SearchIndex`) and write the `llms.txt` outline and full text (`LlmFiles`);
- the library helpers:
  - the OpenAPI description sanitiser (`OpenApiSpec`);
  - the version registry, page-image and icon helpers (`Source`);
  - the per-page LLM text exporter (`LlmText`);
  - base-path joining (`BasePath`);
- the two sitemaps: the hand-written `/sitemap.xml` route (`SitemapXml`) and the metadata sitemap
  (`Sitemap`);
- client-side logic:
  - auth-token normalisation for the API playground (`ApiAuth`);
  - the version switcher (`VersionSwitcher`);
  - the search dialog's hit mapping (`SearchDialog`);
  - the command palette's state machine, result grouping and ordering (`CommandPalette`);
  - the browser mock-up's tab manager (`Browser`).

Shared modules:

- `Wrappers`: `Option`.
- `Text`: the JavaScript string operations the code relies on. These are `startsWith`,
  `includes`, `indexOf`, `replace` with its `$` patterns, `split`, `join`, `trim`, `toLowerCase`,
  title-casing, code-point ordering and the `\n{3,}` collapse.
- `Sorting`: a stable sort by key, and the descending sort of distinct strings.
- `Dedup`: the first-occurrence-wins filter that both sitemaps run with a mutable `Set`.

Pure source code is modelled as functions over datatypes. Code that mutates state is modelled
as methods:

- `getAvailableVersions`, the code-block extraction loop, `buildNameMap`, `buildOutline`,
  `buildFull`, the search-index loop and the sitemap filter are methods with loops;
- the palette, the tab manager, the version switcher and the token store are classes whose methods
  update their fields.

Each method is proved against a specification function. The properties the code promises are lemmas
about those functions.

Strings are sequences of characters. Library calls, the environment, the clock and browser APIs
become parameters of the model:

- the fumadocs page tree and page lists;
- the lucide icon set;
- `process.env`;
- `Date`/`toISOString`;
- `new URL(...).hostname`;
- `encodeURIComponent`;
- `localStorage`, modelled as a map of strings.

## Model

| member | source | states |
|---|---|---|
| ApiAuth.ExtractTokenNone | app/components/api-page.client.tsx:18-27 | `extractToken` gives null exactly when the value is not a string or is blank |
| ApiAuth.ExtractTokenTrimmed | app/components/api-page.client.tsx:18-27 | a token `extractToken` returns is non-empty and already trimmed |
| ApiAuth.ExtractPlainToken | app/components/api-page.client.tsx:22-26 | a trimmed, non-empty value without the `Bearer ` prefix is returned unchanged |
| ApiAuth.ExtractAfterPrefix | app/components/api-page.client.tsx:26 | a trimmed value starting with `Bearer ` yields the trimmed remainder after the 7-character prefix |
| ApiAuth.ExtractBearerToken | app/components/api-page.client.tsx:18-27 | `extractToken("Bearer " + t)` gives back `t` for every trimmed non-empty `t` (the prefix round trip) |
| ApiAuth.StripBearer | app/components/api-page.client.tsx:26 | after a trimmed `Bearer …` value has its prefix removed, the trimmed rest is non-empty and trimming it again changes nothing |
| ApiAuth.PrefixedTrimmed | app/components/api-page.client.tsx:77 | `Bearer ` followed by a token that ends in a non-space is already trimmed |
| ApiAuth.SplitPrefix | app/components/api-page.client.tsx:26 | cutting `Bearer ` + t at 7 gives back the prefix and `t` |
| ApiAuth.StoreEffectKeys | app/components/api-page.client.tsx:29-41 | `storeToken` touches only the auth-token key, and keeps that key, when present, non-empty and trimmed |
| ApiAuth.TokenStore.constructor | app/components/api-page.client.tsx:29-41 | the store starts with the given contents |
| ApiAuth.TokenStore.StoreToken | app/components/api-page.client.tsx:29-41 | without a window (server rendering) the store is untouched; in the browser it sets the key to the extracted token when there is one, removes it only for `query.access_token`, and otherwise leaves the store alone |
| ApiAuth.TokenStore.StoreExtracted | app/components/api-page.client.tsx:34-40 | with a token the key is set to it; without one the key is removed for `query.access_token` and the store is left alone for any other field |
| ApiAuth.TokenStore.MapRestOutput | app/components/api-page.client.tsx:50-54 | returns the REST output for the value; in the browser it stores that trimmed string as the token, and without a window it stores nothing |
| ApiAuth.TokenStore.MapWebhookOutput | app/components/api-page.client.tsx:71-78 | returns the webhook output for the value; in the browser it stores the trimmed raw input (not the prefixed output), and without a window it stores nothing |
| ApiAuth.RestDefault | app/components/api-page.client.tsx:47-49 | the REST default is the current non-empty string value, else the truthy shared token, else "" |
| ApiAuth.RestOutput | app/components/api-page.client.tsx:50-54 | for a string value, the output is empty exactly when the value is blank |
| ApiAuth.RestOutputSameToken | app/components/api-page.client.tsx:50-54 | the REST output carries the same token `extractToken` finds in the raw value |
| ApiAuth.WebhookDefault | app/components/api-page.client.tsx:62-70 | every webhook default starts with `Bearer ` |
| ApiAuth.WebhookDefaultKeepsToken | app/components/api-page.client.tsx:64-67 | a current value `Bearer <non-blank>` is kept as the default, whatever the shared token |
| ApiAuth.WebhookOutput | app/components/api-page.client.tsx:71-78 | every webhook output starts with `Bearer ` |
| ApiAuth.WebhookOutputKeepsToken | app/components/api-page.client.tsx:71-78 | for a non-blank input, the webhook output carries the same token as the input, so adding the prefix loses nothing |
| ApiAuth.TransformField | app/components/api-page.client.tsx:89-100 | keeps a field's name, type and scheme; a field that is neither `query.access_token` nor an http-bearer `header.Authorization` comes back unchanged |
| ApiAuth.TransformAuthInputs | app/components/api-page.client.tsx:84-101 | without a window the fields come back as given; in the browser it preserves length and order, transforming each field on its own |
| ApiAuth.TransformFieldIdempotent | app/components/api-page.client.tsx:43-101 | transforming a field twice equals transforming it once |
| ApiAuth.TransformAuthInputsIdempotent | app/components/api-page.client.tsx:84-101 | `transformAuthInputs` is idempotent on the whole list, on the server and in the browser |
| BasePath.GetBasePathDefault | lib/utils.ts:12-14 | the base path is the configured value, or "" when it is unset (an empty value is also "") |
| BasePath.CleanPath | lib/utils.ts:22 | the cleaned path always starts with "/": it is the path itself when it already did, else "/" + path |
| BasePath.CleanPathIdempotent | lib/utils.ts:22 | cleaning twice equals cleaning once |
| BasePath.WithBasePathShape | lib/utils.ts:20-24 | the result is base + path or base + "/" + path according to the leading "/", and the part after the base always starts with "/" |
| VersionSwitcher.DetectSection | app/components/ui/version-switcher.tsx:38-42 | the section is `rest-api` iff the path contains `/rest-api/`, `webhooks` iff it contains `/webhooks/` but not `/rest-api/`, and none otherwise |
| VersionSwitcher.FindVersionFirst | app/components/ui/version-switcher.tsx:46 | the version found is the first segment matching `^v\d+$`, and none is found iff no segment matches |
| VersionSwitcher.DetectVersionOfPath | app/components/ui/version-switcher.tsx:31-50 | when a section is detected, the version is the first `v<digits>` segment of the path, or "" when there is none |
| VersionSwitcher.ShownIffPublished | app/components/ui/version-switcher.tsx:56-65 | the switcher renders exactly when a section is detected and that section has published versions |
| VersionSwitcher.SwitchedPathShape | app/components/ui/version-switcher.tsx:78 | the rewrite replaces only the first `/<current>/` with `/<next>/`, and leaves a path without it unchanged |
| VersionSwitcher.SwitchVersionPage | app/components/ui/version-switcher.tsx:78 | on a path `…/<current>/<tail>` whose prefix does not already hold `/<current>/`, only the version segment changes |
| VersionSwitcher.Switcher.constructor | app/components/ui/version-switcher.tsx:29-54 | the section and version are those detected from the path name; the popover is closed and nothing has been navigated |
| VersionSwitcher.Switcher.SelectVersion | app/components/ui/version-switcher.tsx:67-80 | the popover closes; picking the current version navigates nowhere; another version becomes current and its rewritten path is pushed |
| SearchDialog.Prefix | app/components/ui/search.tsx:80 | `slice(0, n)` is the prefix of length min(len, n) |
| SearchDialog.DescribeCases | app/components/ui/search.tsx:76-82 | the description is the hit's non-empty description; else the non-empty first 100 characters of its content; else its title |
| SearchDialog.Label | app/components/ui/search.tsx:88-98 | a non-empty segment gets a non-empty label, and no label contains '-' |
| SearchDialog.BreadcrumbsOfPath | app/components/ui/search.tsx:83-99 | a URL with n non-empty segments gives n − 1 breadcrumbs: the labels of all segments but the last |
| SearchDialog.ToItem | app/components/ui/search.tsx:73-100 | each result item keeps its hit |
| SearchDialog.ResultsOf | app/components/ui/search.tsx:72-101 | results are "empty" exactly when the query has no hit data; otherwise there is one item per hit, in order |
| OpenApiSpec.ReplaceSingles | lib/openapi.ts:10-11 | the left-to-right scan keeps the length and puts a space exactly at each newline with no newline on either side |
| OpenApiSpec.RemoveSingleNewlines | lib/openapi.ts:10-11 | same length; each `\n` with no `\n` neighbour becomes a space and every other character, including each newline of a run of two or more, is kept |
| OpenApiSpec.NoSingleNewlineLeft | lib/openapi.ts:10-11 | the result holds no isolated newline |
| OpenApiSpec.RemoveSingleNewlinesIdempotent | lib/openapi.ts:10-11 | applying the rewrite twice equals applying it once |
| OpenApiSpec.SanitizeKeepsShape | lib/openapi.ts:23-42 | arrays keep length and order and objects keep exactly their keys in order, at every depth; only the string values of `description` and `summary` members may change (and stay strings), every other string and scalar comes back as it was |
| OpenApiSpec.SanitizeCleans | lib/openapi.ts:27-40 | afterwards, no string under a `description` or `summary` key anywhere in the tree has an isolated newline |
| OpenApiSpec.SanitizeCleanIdentity | lib/openapi.ts:23-42 | a tree that is already clean is returned unchanged, including non-string values under those keys and all scalars |
| OpenApiSpec.SanitizeIdempotent | lib/openapi.ts:23-42 | sanitising twice equals sanitising once |
| OpenApiDocs.DashSpaces | scripts/generate-openapi-docs.ts:8 | `replace(/\s+/g, "-")` leaves no white space, and leaves text without white space unchanged |
| OpenApiDocs.KeepSlugChars | scripts/generate-openapi-docs.ts:9 | the filter keeps only `a-z0-9-`, never lengthens, and is the identity on slugs |
| OpenApiDocs.Sanitize | scripts/generate-openapi-docs.ts:5-10 | `sanitizeForFileSystem` yields only characters in `a-z`, `0-9` and `-` |
| OpenApiDocs.AlnumOfKeepSlugChars | scripts/generate-openapi-docs.ts:9 | the character filter drops no lower-case letter or digit |
| OpenApiDocs.AlnumOfDashSpaces | scripts/generate-openapi-docs.ts:8 | the white-space rewrite drops no lower-case letter or digit |
| OpenApiDocs.SanitizeKeepsAlnum | scripts/generate-openapi-docs.ts:5-10 | the letters and digits of the slug are exactly those of the lower-cased input, in order |
| OpenApiDocs.SanitizeSlug | scripts/generate-openapi-docs.ts:5-10 | a string that is already a slug is returned unchanged |
| OpenApiDocs.SanitizeIdempotent | scripts/generate-openapi-docs.ts:5-10 | sanitising twice equals sanitising once |
| OpenApiDocs.ApiTypeWebhookIff | scripts/generate-openapi-docs.ts:13-29 | the family is webhook iff no REST marker (`rest`/`v2` in the schema id, `/rest/` in the path) and some webhook marker is present; REST wins whenever both appear, and is the default |
| OpenApiDocs.SiteSchemasClassified | scripts/generate-openapi-docs.ts:13-29 | the `rest_v2` schema is always REST, and the `webhooks_v3` schema is webhook unless the path contains `/rest/` |
| OpenApiDocs.LastSegment | scripts/generate-openapi-docs.ts:41-42 | the last non-empty path segment (default `endpoint`) contains no `/` |
| OpenApiDocs.OperationIdOneSegment | scripts/generate-openapi-docs.ts:32-45 | an operation id never contains `/`, so it is exactly one path segment |
| OpenApiDocs.OperationIdFromPath | scripts/generate-openapi-docs.ts:40-44 | without an operation id, a slug-shaped last segment and lower-case method give `<segment>-<method>` |
| OpenApiDocs.CleanTagName | scripts/generate-openapi-docs.ts:48-58 | strips `work-orders.` only for REST and `webhooks.` only for webhook tags; any other tag and family pair is unchanged |
| OpenApiDocs.OperationPathSegments | scripts/generate-openapi-docs.ts:61-84 | an operation path has exactly five segments: `api-references`, the family directory, its version, the sanitised cleaned tag and the operation id |
| OpenApiDocs.OperationOutputPlacement | scripts/generate-openapi-docs.ts:103-118 | an operation without tags is placed in tag directory `api` under its family |
| OpenApiDocs.OtherOutputPlacement | scripts/generate-openapi-docs.ts:95-101 | a non-operation output with a name goes to `api-references/webhooks/v3/<sanitised name>`, and without one to `api` |
| Source.ResolveIcon | lib/source.ts:13-34 | no icon for a missing or empty name; the name itself when it starts with an emoji in U+1F300–U+1F9FF; a named icon exactly when the name is in the icon set; nothing otherwise |
| Source.PageImageLocation | lib/source.ts:61-67 | the image URL lies under `/og/api-references/`, ends in `/image.png`, and its segments are the page's slugs followed by `image.png` |
| Source.AllPages | lib/source.ts:84-86 | all pages are the documentation pages followed by the API-reference pages |
| Source.VersionsInIff | lib/source.ts:100-115 | a version is registered for a section iff some page has at least two slugs, the section first and that `v<digits>` version second |
| Source.VersionsInAppend | lib/source.ts:100-115 | the versions of two page lists together are the union of each list's versions |
| Source.AllPagesVersions | lib/source.ts:84-115 | the registry over all pages unites the documentation and API-reference versions |
| Source.SetAdd | lib/source.ts:112 | `Set.add` keeps the list duplicate-free and adds exactly the one version |
| Source.VersionsStep | lib/source.ts:100-115 | one more page adds at most its own version to its own section |
| Source.CollectVersions | lib/source.ts:100-115 | the loop over all pages leaves each section's list duplicate-free and holding exactly the versions the pages publish for it |
| Source.SortedVersionList | lib/source.ts:118-123 | the descending sort of the distinct collected versions is strictly descending and holds exactly the published versions |
| Source.GetAvailableVersions | lib/source.ts:92-124 | the result has exactly the keys `rest-api` and `webhooks`; each list is duplicate-free, strictly descending by character order, and holds exactly the versions the pages publish for that section |
| LlmText.ContentRoot | lib/get-llm-text.ts:10-11 | the content root is `content/api-references` iff the url starts with `/api-references`, and `content/docs` otherwise |
| LlmText.SourceUrlShape | lib/get-llm-text.ts:9-25 | the source URL always ends in `<root>/<path>`; with a repository it is on `raw.githubusercontent.com/<repo>/` and names the branch (default `main`); without one it is exactly `<root>/<path>` |
| LlmText.NextBlock | lib/get-llm-text.ts:37 | a match of the lazy fence pattern spans at least the two fences and lies inside the text |
| LlmText.NextBlockShape | lib/get-llm-text.ts:37 | the match starts at the first fence and ends at the next fence after it (non-greedy); with no match, no two non-overlapping fences exist |
| LlmText.NatString | lib/get-llm-text.ts:49 | a placeholder's index renders as a non-empty run of decimal digits |
| LlmText.Placeholder | lib/get-llm-text.ts:49 | the i-th placeholder is `__CODE_BLOCK_` followed by i's digits and `__` |
| LlmText.ExtractCodeBlocks | lib/get-llm-text.ts:36-44 | the `exec` loop collects exactly the fenced blocks of the text, in order |
| LlmText.RestoreCodeBlocks | lib/get-llm-text.ts:114-116 | the `forEach` loop puts block i back at the first `__CODE_BLOCK_i__`, in index order; it splices each block in verbatim, which is what the source's `replace` does for blocks without `$` (`RestoreAsWrittenVerbatim`) |
| LlmText.PlaceholderFirst | lib/get-llm-text.ts:115 | when no marker precedes it, a placeholder is found at its own position |
| LlmText.RestoreRoundTrip | lib/get-llm-text.ts:36-116 | restoring the blocks into the placeholder text gives back the original text, provided the text holds no `__CODE_BLOCK_` marker of its own |
| LlmText.RestoreAll | lib/get-llm-text.ts:36-116 | extracting the blocks, replacing them with placeholders and splicing them back verbatim gives back the original text |
| LlmText.RestoreAllAsWritten | lib/get-llm-text.ts:36-116 | with the source's `String.replace` restore, the same round trip holds whenever no code block holds `$` |
| LlmText.RestoreAsWrittenVerbatim | lib/get-llm-text.ts:114-116 | for blocks without `$`, the restore with `String.replace` equals the verbatim restore |
| LlmText.RestoreAsWrittenCorrupts | lib/get-llm-text.ts:114-116 | with `String.replace` as written, the block "```$$```" comes back as "```$```", while the verbatim restore gives it back unchanged |
| LlmText.TagLen | lib/get-llm-text.ts:109 | a tag match runs from a `<` to the first `>` after it, with a non-empty body |
| LlmText.StripTags | lib/get-llm-text.ts:109 | tag removal never lengthens the text and only keeps characters of the input |
| LlmText.NoOpenerTagFree | lib/get-llm-text.ts:109 | text without `<` contains no tag |
| LlmText.StripTagFree | lib/get-llm-text.ts:109 | tag removal leaves tag-free text unchanged |
| LlmText.NoCloserTagLen | lib/get-llm-text.ts:109 | a `<` with no `>` after it does not start a tag |
| LlmText.StripTagsLeavesNoTag | lib/get-llm-text.ts:109 | after the pass no tag remains; for `/<(?![_])[^>]+>/g`, tags whose name starts with `_` are kept |
| LlmText.StripTagsIdempotent | lib/get-llm-text.ts:109 | removing tags twice equals removing them once |
| LlmText.CalloutPrefix | lib/get-llm-text.ts:62-69 | `[WARNING] `, `[ERROR] ` and `[INFO] ` for those three types, and no prefix for any other or a missing type |
| LlmText.CalloutOfText | lib/get-llm-text.ts:57-76 | a Callout whose content is blank renders as ""; otherwise as "> " + prefix + the trimmed content |
| LlmText.TabWithValue | lib/get-llm-text.ts:79 | finds the first tab whose value equals the default value, and none when no tab has it |
| LlmText.ChosenTab | lib/get-llm-text.ts:78-93 | the chosen tab is the first one with the default value, else the first tab; there is none only when there are no tabs |
| LlmText.DigitRun | lib/get-llm-text.ts:32 | the length of the leading run of decimal digits |
| LlmText.PlaceholderFrom | lib/get-llm-text.ts:32 | finds the first placeholder match at or after a position, and none when there is none |
| LlmText.FirstPlaceholderShape | lib/get-llm-text.ts:82-83 | the first placeholder match in a tab's content is a `__CODE_BLOCK_…__` substring of it, and "" exactly when the content has none |
| LlmText.PlaceholderFirstMatch | lib/get-llm-text.ts:82-83 | a generated placeholder preceded by no `_` is the first match |
| LlmText.ChosenTabBlock | lib/get-llm-text.ts:78-93 | a tab group renders as the first placeholder of the chosen tab |
| LlmText.StripMdxComponents | lib/get-llm-text.ts:34-119 | the result is the trimmed text after the Callout, tab and tag passes, the newline collapse and a verbatim restore of the code blocks |
| LlmText.CleanMarkdownAgrees | lib/get-llm-text.ts:34-119 | `stripMDXComponents` with the source's `String.replace` restore gives the same text as the verbatim model whenever no code block holds `$` |
| LlmText.CodeBlocksSurvive | lib/get-llm-text.ts:34-119 | with the verbatim restore, text with no components and no triple newlines outside its code blocks comes out as the trimmed original text, code blocks included |
| LlmText.Category | lib/get-llm-text.ts:125-136 | `API References` for API-reference urls; otherwise the label for the first slug in the fixed table, or the first slug itself |
| LlmText.CategoryEmptyIff | lib/get-llm-text.ts:125-136 | the category is empty exactly for a non-API page without slugs, so the `Documentation` fallback only appears when the slug itself is `Documentation` |
| LlmText.PageTitle | lib/get-llm-text.ts:158-159 | the title is the option's title, else the page's title, else `Untitled` |
| LlmText.PageDescription | lib/get-llm-text.ts:160-163 | the description is the option's, else the page's, else "" |
| LlmText.GetLlmTextLines | lib/get-llm-text.ts:121-172 | the output's lines are `# <category>: <title>`, `URL: <url>`, `Source: <source url>`, a blank line, the description and a blank line, followed by the lines of the cleaned markdown |
| LlmFiles.ApplyLast | scripts/generate-llm-files.ts:23-44 | after a sequence of `map.set` writes, a url maps to the name of the last write to it |
| LlmFiles.ApplyUnwritten | scripts/generate-llm-files.ts:23-44 | a url that no write touches keeps its presence and its value |
| LlmFiles.NameMapBuilder.constructor | scripts/generate-llm-files.ts:24 | the map starts empty |
| LlmFiles.NameMapBuilder.Traverse | scripts/generate-llm-files.ts:26-37 | visiting a node applies, in order, its own write (a page with url and name, or a folder's index url with the folder name) and then the writes of its children |
| LlmFiles.NameMapBuilder.TraverseAll | scripts/generate-llm-files.ts:33-35 | visiting a list of nodes applies their writes one node after another |
| LlmFiles.BuildNameMap | scripts/generate-llm-files.ts:23-44 | the map is the result of every write in the tree, in traversal order, so later writes overwrite earlier ones |
| LlmFiles.NameMapLookup | scripts/generate-llm-files.ts:23-44 | a url is in the map exactly when some page node or folder index in the tree wrote it |
| LlmFiles.DefaultPageName | scripts/generate-llm-files.ts:59-62 | the default segment `page` title-cases to `Page` |
| LlmFiles.PageNameFallback | scripts/generate-llm-files.ts:51-63 | without a non-empty mapped name, the name is the last url segment with dashes as spaces and word-initial capitals |
| LlmFiles.PageNameDefault | scripts/generate-llm-files.ts:57-62 | without a mapped name and without url segments, the name is `Page` |
| LlmFiles.PageNameNonEmpty | scripts/generate-llm-files.ts:51-63 | a page name is never empty |
| LlmFiles.Items | scripts/generate-llm-files.ts:105-107 | one `- <name> — <url>` line per page, in the given order |
| LlmFiles.FormatPages | scripts/generate-llm-files.ts:92-109 | the block is empty exactly when there are no pages |
| LlmFiles.FormatPagesLines | scripts/generate-llm-files.ts:92-109 | the block's lines are `### <title>`, one item line per page sorted stably by name, and an empty line |
| LlmFiles.KeyOrder | scripts/generate-llm-files.ts:111-121 | the group keys in first-insertion order hold no duplicate |
| LlmFiles.Group | scripts/generate-llm-files.ts:113-119 | a group holds only pages whose first slug (or `other`) is its key |
| LlmFiles.Grouping | scripts/generate-llm-files.ts:111-121 | the record's key list and its map describe the same keys, and every group is non-empty |
| LlmFiles.KeyOrderIff | scripts/generate-llm-files.ts:111-121 | a key is in the record iff some page has that category key |
| LlmFiles.GroupEmptyIff | scripts/generate-llm-files.ts:111-121 | a key's group is empty iff the key is not in the record |
| LlmFiles.GroupMembers | scripts/generate-llm-files.ts:111-121 | a page is in a key's group iff it is one of the pages and has that key, so every page lands in its own group |
| LlmFiles.GroupSizes | scripts/generate-llm-files.ts:111-121 | the group sizes add up to the number of pages, so no page is lost or counted twice |
| LlmFiles.GroupByCategory | scripts/generate-llm-files.ts:111-121 | the loop builds exactly the grouping: keys in first-insertion order, each group in input order |
| LlmFiles.Present | scripts/generate-llm-files.ts:128-132 | the preferred keys that have a group, in preferred order |
| LlmFiles.Others | scripts/generate-llm-files.ts:133-137 | the record's keys that are not preferred, in insertion order |
| LlmFiles.EntriesOf | scripts/generate-llm-files.ts:127-138 | one `[key, pages]` entry per key, in the order of the keys |
| LlmFiles.PreferredEntries | scripts/generate-llm-files.ts:128-132 | the first loop emits the entries of the present preferred keys, in preferred order |
| LlmFiles.RemainingEntries | scripts/generate-llm-files.ts:133-137 | the second loop emits the entries of the other keys, in insertion order |
| LlmFiles.OrderedEntries | scripts/generate-llm-files.ts:123-139 | the entries of the present preferred keys followed by those of the remaining keys |
| LlmFiles.PresentDistinct | scripts/generate-llm-files.ts:128-132 | a duplicate-free preferred order yields no duplicate entry |
| LlmFiles.OthersDistinct | scripts/generate-llm-files.ts:133-137 | the remaining keys hold no duplicate |
| LlmFiles.EntryKeysExactlyOnce | scripts/generate-llm-files.ts:123-139 | every group of the record appears exactly once among the ordered entries |
| LlmFiles.FormattedBlocks | scripts/generate-llm-files.ts:150-156 | one formatted block per entry |
| LlmFiles.FormattedBlockAt | scripts/generate-llm-files.ts:151-152 | the i-th block formats the i-th entry's pages under its label (the label table's value, or the key) |
| LlmFiles.AppendBlocks | scripts/generate-llm-files.ts:150-156 | the loop appends exactly the non-empty blocks, in entry order |
| LlmFiles.KeepNonEmpty | scripts/generate-llm-files.ts:150-156 | `if (block) lines.push(block)` over the blocks appends exactly the non-empty ones, in order |
| LlmFiles.BuildOutline | scripts/generate-llm-files.ts:65-168 | the outline is the title, the documentation heading and blocks, the API heading and blocks, joined by newlines with trailing white space trimmed |
| LlmFiles.SectionsNonEmpty | scripts/generate-llm-files.ts:141-156 | each ordered entry is a key of the record with its non-empty group |
| LlmFiles.SectionsExactlyOnce | scripts/generate-llm-files.ts:123-156 | the ordered entries name every category key exactly once, each with its complete group |
| LlmFiles.OutlineOneBlockPerCategory | scripts/generate-llm-files.ts:149-165 | the outline holds exactly one block per category, formatting that category's pages under its label |
| LlmFiles.TocLines | scripts/generate-llm-files.ts:236-245 | one table-of-contents line per entry |
| LlmFiles.TocOf | scripts/generate-llm-files.ts:236-245 | the loop builds one `- <label> (<count>)` line per entry, in order |
| LlmFiles.TocOneLinePerCategory | scripts/generate-llm-files.ts:236-245 | one table-of-contents line per category, giving its label and the size of its group |
| LlmFiles.AppendToc | scripts/generate-llm-files.ts:247-252 | a table-of-contents section adds a blank line, its heading and its lines, and nothing when it has no lines |
| LlmFiles.PageSectionList | scripts/generate-llm-files.ts:261-273 | one section per page, in order |
| LlmFiles.PageSections | scripts/generate-llm-files.ts:261-273 | each page contributes exactly seven lines |
| LlmFiles.AppendPages | scripts/generate-llm-files.ts:261-273 | the loop appends each page's heading, URL, text and `---` separator, pages in source order |
| LlmFiles.AppendGroups | scripts/generate-llm-files.ts:258-274 | the loop appends each group's heading with its page count and then its pages, groups in entry order |
| LlmFiles.BuildFull | scripts/generate-llm-files.ts:170-300 | the full text is the title, the table of contents, and the documentation and API sections, joined by newlines, collapsed and end-trimmed |
| LlmFiles.PageSectionAt | scripts/generate-llm-files.ts:261-273 | page j's seven lines sit at offset 7·j of its group's page lines |
| LlmFiles.GroupSectionShape | scripts/generate-llm-files.ts:258-274 | a group starts with `## <label> (<count>)`, and page j contributes `### <name>`, `URL: <url>`, "", its text, "", `---`, "" |
| LlmFiles.FullTextClean | scripts/generate-llm-files.ts:296-299 | the full text holds no run of three newlines and ends in a non-space character (or is empty) |
| LlmFiles.OutputPath | scripts/generate-llm-files.ts:347-352 | every per-page file lies under `public/llms/` and ends in `.txt` |
| LlmFiles.OutputPathServed | scripts/generate-llm-files.ts:347-352 | for a url starting with `/` the file is `public/llms<url>.txt`, which is where `/llms<url>.txt` is served from, and different urls get different files (no path normalisation, see "Left out") |
| SearchIndex.SearchDb.constructor | scripts/generate-search-index.ts:40-42 | the index starts empty |
| SearchIndex.SearchDb.Insert | scripts/generate-search-index.ts:48-56 | `insert` appends exactly the one entry and keeps every earlier entry |
| SearchIndex.SectionOf | scripts/generate-search-index.ts:43-45 | the section is `Documentation` iff the url starts with `/docs`, and `API Reference` otherwise |
| SearchIndex.Shallow | scripts/generate-search-index.ts:61-62 | the indexed headings are among the TOC items |
| SearchIndex.ShallowIff | scripts/generate-search-index.ts:60-62 | an item is indexed iff it is in the TOC (a missing TOC being empty) and has depth at most 3 |
| SearchIndex.HeadingEntries | scripts/generate-search-index.ts:61-75 | one heading entry per indexed TOC item, in TOC order |
| SearchIndex.IndexPage | scripts/generate-search-index.ts:47-75 | indexing one page appends exactly its page entry and its heading entries, and adds their number to the count |
| SearchIndex.GenerateSearchIndex | scripts/generate-search-index.ts:36-76 | the index holds the entries of all pages, page by page and in page order, and the count equals the number of entries |
| SearchIndex.IndexAppend | scripts/generate-search-index.ts:42-76 | the entries of two page lists together are the entries of the first followed by those of the second |
| SearchIndex.DocsBeforeApi | scripts/generate-search-index.ts:36-38 | every documentation page's entries come before every API page's entries |
| SearchIndex.PageEntriesLayout | scripts/generate-search-index.ts:48-56 | a page's first entry is its one `page` entry: id and url are the page url, the title is the page title, and description and content are the description or ""; every entry of a page has the page's section |
| SearchIndex.PageHeadingEntries | scripts/generate-search-index.ts:60-75 | the entries after a page's own are exactly the heading entries (id and url `<page url>#<item url>`, title and content the item's title) of its TOC items of depth at most 3 |
| SearchIndex.ShallowLength | scripts/generate-search-index.ts:61-62 | the number of indexed headings is the number of TOC items of depth at most 3 |
| SearchIndex.HeadingsCount | scripts/generate-search-index.ts:61-75 | heading entries are all of type `heading` |
| SearchIndex.PageEntriesCounts | scripts/generate-search-index.ts:47-75 | a page yields one `page` entry and one `heading` entry per TOC item of depth at most 3 |
| SearchIndex.EntryCounts | scripts/generate-search-index.ts:40-76 | the final count is the number of pages plus the number of qualifying TOC items, with exactly one `page` entry per page |
| Dedup.DedupBy | app/sitemap.xml/route.ts:51-60 | the one-pass filter over a mutable `seen` set keeps exactly the first entry for each key |
| Dedup.FirstWinsProperties | app/sitemap.xml/route.ts:51-60 | the kept entries are a subsequence of the input in order, cover every key of the input, and hold no key twice |
| Dedup.FirstWinsAppend | app/sitemap.xml/route.ts:51-60 | filtering a concatenation filters the second part against the keys of the first |
| Dedup.FirstWinsDistinct | app/sitemap.xml/route.ts:51-60 | entries whose keys are distinct and unseen all survive, in order |
| Dedup.FirstOccurrenceKept | app/sitemap.xml/route.ts:51-60 | the first entry with a given key is always kept |
| SitemapXml.DocEntries | app/sitemap.xml/route.ts:35-40 | one entry per documentation page, in order |
| SitemapXml.ApiEntries | app/sitemap.xml/route.ts:42-49 | one entry per API page, in order |
| SitemapXml.EntryFields | app/sitemap.xml/route.ts:26-49 | after the static pages, each entry keeps its page's path and changes weekly, at priority 0.7 for documentation and 0.75 for API pages; it has a date exactly when the front-matter value is non-empty; static pages have no date |
| SitemapXml.SitemapEntries | app/sitemap.xml/route.ts:51-60 | the filter keeps the first entry for each raw path among static, documentation and API entries |
| SitemapXml.NormalizedPath | app/sitemap.xml/route.ts:81-82 | the path is unchanged iff it is "/" or has no trailing "/"; otherwise exactly one trailing "/" is removed |
| SitemapXml.Urls | app/sitemap.xml/route.ts:62 | no entries give an empty list of elements |
| SitemapXml.Get | app/sitemap.xml/route.ts:22-75 | the response body is the XML document over the deduplicated entries, with the base URL from the environment or the default site URL |
| SitemapXml.StaticPathsDistinct | app/sitemap.xml/route.ts:26-33 | the six static paths are pairwise different |
| SitemapXml.EntryOrder | app/sitemap.xml/route.ts:51-60 | all static pages come first, in order; then the documentation and then the API entries whose paths were not seen earlier |
| SitemapXml.EntriesUnique | app/sitemap.xml/route.ts:51-60 | the entries are a subsequence of the candidates, no path appears twice, and every documentation and API page's path is listed |
| SitemapXml.FieldsSingleLine | app/sitemap.xml/route.ts:81-92 | the change frequency and priority texts hold no newline, and normalising a path adds none |
| SitemapXml.HeaderSingleLine | app/sitemap.xml/route.ts:65-68 | the XML declaration and the `urlset` tags are single lines |
| SitemapXml.PageXmlLines | app/sitemap.xml/route.ts:77-93 | a `<url>` element is six lines with a `<lastmod>` line exactly when a date is known, and five otherwise; its `<loc>` is the base URL + the normalised path |
| SitemapXml.UrlLinesSingle | app/sitemap.xml/route.ts:77-93 | no line of a `<url>` element holds a newline |
| SitemapXml.UrlBlocks | app/sitemap.xml/route.ts:62 | one block of lines per entry, in order |
| SitemapXml.UrlsAsLines | app/sitemap.xml/route.ts:62 | joining the elements by newlines equals joining all their lines by newlines |
| SitemapXml.AllUrlLinesSingle | app/sitemap.xml/route.ts:62 | no line of the joined elements holds a newline |
| SitemapXml.DocumentLines | app/sitemap.xml/route.ts:62-68 | the document's lines are the declaration, the sitemaps.org 0.9 `urlset` opening, the lines of every `<url>` element in order (one empty line when there is none), and the closing tag |
| SitemapXml.DocumentJoin | app/sitemap.xml/route.ts:64-68 | the template equals the envelope lines joined by newlines |
| Sitemap.StaticPages | app/sitemap.ts:21-58 | six static entries, each the site URL followed by its fixed path, each dated at build time |
| Sitemap.DocEntries | app/sitemap.ts:60-68 | one entry per documentation page, in order |
| Sitemap.ApiEntries | app/sitemap.ts:70-78 | one entry per API page, in order |
| Sitemap.Sitemap | app/sitemap.ts:20-92 | the sitemap is the candidate list with every entry whose URL came earlier removed |
| Sitemap.StaticUrlsDistinct | app/sitemap.ts:21-58 | the static URLs are pairwise different for every site URL |
| Sitemap.EntryOrder | app/sitemap.ts:80-89 | all static entries come first, in order; then the documentation and then the API entries whose URL was not seen earlier |
| Sitemap.EntriesUnique | app/sitemap.ts:80-89 | the entries are a subsequence of the candidates, no URL appears twice, and every page's `SITE_URL + url` is listed |
| Sitemap.EntryFields | app/sitemap.ts:60-78 | after the static entries, each URL is the site URL + the page url, weekly, at 0.7 for documentation and 0.75 for API pages; the date is the page's value exactly when it has a non-empty one, and the build time otherwise |
| CommandPalette.ModifierFor | app/components/ui/command-pallete.tsx:107-124 | the modifier is `Ctrl` exactly when a user agent is known and contains `Windows`, and `⌘` otherwise (including during server rendering) |
| CommandPalette.ShortcutRoundTrip | app/components/ui/command-pallete.tsx:126-131 | a formatted shortcut parses back into its modifier and key: `Ctrl <key>` with a space, `⌘<key>` without |
| CommandPalette.ShortcutInjective | app/components/ui/command-pallete.tsx:126-131 | different modifier and key pairs never format to the same text |
| CommandPalette.SliceFrom | app/components/ui/command-pallete.tsx:326 | `slice(start)` for a non-negative start, or for a negative start counting from the end |
| CommandPalette.DisplayBreadcrumbs | app/components/ui/command-pallete.tsx:320-328 | breadcrumbs of length at most `maxItems` are unchanged; longer ones with `maxItems` ≥ 3 become the first item, `...` and the last `maxItems − 2` items, `maxItems` in all; with `maxItems` = 2 the whole list follows the ellipsis |
| CommandPalette.ResultBreadcrumbs | app/components/ui/command-pallete.tsx:320-328 | with `maxItems` 3, as the result list passes it, a trail of more than three shows the first breadcrumb, `...` and the last |
| CommandPalette.DefaultBreadcrumbs | app/components/ui/command-pallete.tsx:320-328 | with the default of four, more than four breadcrumbs become first, `...`, second-to-last and last |
| CommandPalette.SectionFromUrl | app/components/ui/command-pallete.tsx:348-371 | any `/api-reference…` url is `REST API`; `Documentation` iff the url starts with `/docs` and none of the five specific `/docs/…` prefixes; `Other` iff it starts with neither `/docs` nor `/api-reference`; every section is one of the known seven |
| CommandPalette.SectionFromUrlFacts | app/components/ui/command-pallete.tsx:348-371 | the prefixes it looks for are disjoint or nested as the fixed order assumes |
| CommandPalette.ToResult | app/components/ui/command-pallete.tsx:648-679 | keeps id, url and type; the title is the content or last breadcrumb, else the url; only a text hit with string content has a description; breadcrumbs are kept only when non-empty; the section comes from the url |
| CommandPalette.SearchResults | app/components/ui/command-pallete.tsx:644-681 | there are no results exactly when the search is blank or there are no hit data; otherwise one result per hit, in order |
| CommandPalette.SortByTypeOrder | app/components/ui/command-pallete.tsx:694-697 | the sort is a permutation that puts pages before headings before text, and is stable within each type |
| CommandPalette.SectionKeys | app/components/ui/command-pallete.tsx:699-704 | the `Map`'s keys in first-insertion order hold no duplicate |
| CommandPalette.InSection | app/components/ui/command-pallete.tsx:699-704 | a section's group holds only results of that section |
| CommandPalette.InSectionEmptyIff | app/components/ui/command-pallete.tsx:699-704 | a section's group is empty iff the section is not a key |
| CommandPalette.InSectionMembers | app/components/ui/command-pallete.tsx:699-704 | a result is in a section's group iff it is a result of that section |
| CommandPalette.SectionKeysIff | app/components/ui/command-pallete.tsx:699-704 | a section is a key iff some result has that section |
| CommandPalette.GroupBySection | app/components/ui/command-pallete.tsx:691-704 | the loop's `Map` has exactly the section keys, each mapped to its results in sorted order |
| CommandPalette.Groups | app/components/ui/command-pallete.tsx:717-721 | one group per key, in insertion order, each with its section's results |
| CommandPalette.SectionIndex | app/components/ui/command-pallete.tsx:707-724 | `indexOf` in the fixed section order: the first position of the section, or −1 exactly when it is unknown |
| CommandPalette.CompareIsKeyOrder | app/components/ui/command-pallete.tsx:722-735 | the comparator orders sections exactly as a sort key does, so the sort is by that key |
| CommandPalette.SectionKeyInjective | app/components/ui/command-pallete.tsx:722-735 | different sections have different sort keys, so the comparator never ties two different sections |
| CommandPalette.ComparatorMeaning | app/components/ui/command-pallete.tsx:722-735 | known sections come before unknown ones; known sections follow the fixed priority; unknown sections are ordered by name |
| CommandPalette.SortedGroupOrder | app/components/ui/command-pallete.tsx:717-735 | the groups after sorting are a permutation of the groups, ordered by the comparator |
| CommandPalette.FlattenSortGroups | app/components/ui/command-pallete.tsx:747 | sorting the groups neither loses nor adds results in the flattened list |
| CommandPalette.SectionSizesTotal | app/components/ui/command-pallete.tsx:699-704 | the sizes of the groups add up to the number of results |
| CommandPalette.FlattenGroups | app/components/ui/command-pallete.tsx:699-721 | every result lands in exactly one group and the total count is preserved |
| CommandPalette.FilteredCommands | app/components/ui/command-pallete.tsx:738-743 | the command list is empty iff the search is non-blank, and otherwise all four commands |
| CommandPalette.ResultItems | app/components/ui/command-pallete.tsx:747 | one palette item per result, in order |
| CommandPalette.GroupedMembers | app/components/ui/command-pallete.tsx:683-747 | the flattened, sorted groups have exactly as many items as there are results, and the same results |
| CommandPalette.AllItemsCommands | app/components/ui/command-pallete.tsx:745-750 | for a blank search the palette lists the four commands, in order |
| CommandPalette.AllItemsPending | app/components/ui/command-pallete.tsx:745-750 | for a non-blank search without hit data the palette lists nothing |
| CommandPalette.AllItemsResults | app/components/ui/command-pallete.tsx:745-750 | for a non-blank search with hits the palette lists one item per hit, and an item is listed iff it is the result of some hit |
| CommandPalette.ArrowKeys | app/components/ui/command-pallete.tsx:813-823 | ArrowDown goes i → i+1 and wraps to 0, ArrowUp goes i → i−1 and wraps to n−1, both stay in [0, n) and undo each other |
| CommandPalette.LeadingDigits | app/components/ui/command-pallete.tsx:832 | the longest digit prefix of the key, as `parseInt` reads it |
| CommandPalette.ParseDigitKey | app/components/ui/command-pallete.tsx:832 | a digit key parses to its value; any other single character that is not a sign or white space parses to nothing |
| CommandPalette.KeyNavigation | app/components/ui/command-pallete.tsx:831-842 | another key navigates iff the search is blank and the key parses to k with 1 ≤ k ≤ the number of commands, and then to command k−1's link |
| CommandPalette.EnterNavigation | app/components/ui/command-pallete.tsx:825-829 | Enter on a listed item navigates to that item's link |
| CommandPalette.SelectionStaysInRange | app/components/ui/command-pallete.tsx:813-823 | a selection inside the list stays inside it after any key |
| CommandPalette.Palette.constructor | app/components/ui/command-pallete.tsx:620-638 | the palette starts closed with an empty query and search and the first item selected |
| CommandPalette.Palette.Open | app/components/ui/command-pallete.tsx:771-782 | opening selects the first item and keeps the query |
| CommandPalette.Palette.Dismiss | app/components/ui/command-pallete.tsx:758-769 | `handleSelect` closes the palette and resets query, search and selection |
| CommandPalette.Palette.SetQuery | app/components/ui/command-pallete.tsx:871-881 | the search follows the query, and the selection resets exactly when the query changed |
| CommandPalette.Palette.Toggle | app/components/ui/command-pallete.tsx:894-913 | the global shortcut closes an open palette (resetting it) or opens a closed one, selecting the first item |
| CommandPalette.Palette.KeyDown | app/components/ui/command-pallete.tsx:805-852 | one run of the handler, as for a key pressed with the focus elsewhere in the dialog: Escape, and each navigation, close and reset the palette (a navigation also returns the link); arrows change only the selection; any other key changes nothing |
| CommandPalette.Palette.KeyDownInInput | app/components/ui/command-pallete.tsx:958-976 | a key typed in the search box runs the handler on the box and on the dialog: the new state is that of `InInputAction`, closing and navigating as once, with both selection updates applied |
| CommandPalette.Palette.Perform | app/components/ui/command-pallete.tsx:805-852 | each decided action's effect: close and reset, navigate (returning the link) and reset, set the selection, or nothing |
| CommandPalette.InInputArrowsSkip | app/components/ui/command-pallete.tsx:812-822 | typed in the search box, an arrow keeps the parity of the selection over an even number of items, does not move over two items, and goes from the first of four items to the third; other keys act as once |
| Browser.Or | app/components/ui/browser.tsx:137-139 | JavaScript `\|\|` on strings: a non-empty value wins, and the result is empty only when the fallback is |
| Browser.Deactivated | app/components/ui/browser.tsx:246 | every tab is kept, with `isActive` cleared |
| Browser.FindActive | app/components/ui/browser.tsx:282 | `find` returns an active tab of the list, and none exactly when no tab is active |
| Browser.FindActiveAt | app/components/ui/browser.tsx:282 | when exactly one tab is active, `find` returns that tab |
| Browser.InitialTabs | app/components/ui/browser.tsx:134-154 | with no initial tabs there is the single active tab `1` at the initial url; otherwise one tab per initial tab, in order |
| Browser.InitialIdsDistinct | app/components/ui/browser.tsx:135-137 | initial tabs whose given ids differ from each other and from every generated `Date.now() + index` id have distinct ids |
| LlmText.NatStringInjective | app/components/ui/browser.tsx:137 | different indexes give different numerals, so generated tab ids never clash with each other |
| Browser.InitialActivity | app/components/ui/browser.tsx:134-154 | exactly the first tab is active, none is loading, ids and titles are non-empty, and each tab keeps its given id, title and url, falling back to the timestamp id, `New Tab` and the initial url |
| Browser.OpenedActivity | app/components/ui/browser.tsx:237-247 | a new tab appends one active `about:blank` tab and deactivates the rest, keeping them otherwise unchanged |
| Browser.OpenedDistinct | app/components/ui/browser.tsx:237-247 | a new tab with a fresh timestamp id keeps tab ids distinct |
| Browser.IndexOfId | app/components/ui/browser.tsx:259 | `findIndex`: the first index with that id, or −1 exactly when no tab has it |
| Browser.Without | app/components/ui/browser.tsx:262 | the filter never adds tabs |
| Browser.WithoutMembers | app/components/ui/browser.tsx:262 | a tab survives the filter iff it is a tab with a different id |
| Browser.WithoutAbsent | app/components/ui/browser.tsx:262 | filtering out an unknown id keeps every tab |
| Browser.WithoutDistinct | app/components/ui/browser.tsx:262 | with distinct ids, the filter removes exactly the one tab with that id, keeping the others in order |
| Browser.ClosedFocus | app/components/ui/browser.tsx:264-269 | current and input url move only when the closed tab was the active one |
| Browser.CloseRemoves | app/components/ui/browser.tsx:254-271 | apart from activity, closing leaves exactly the other tabs, in order |
| Browser.CloseActivity | app/components/ui/browser.tsx:254-271 | closing the active tab activates the tab at min(index, new length − 1) and focuses its url; closing an inactive tab keeps the same tab active |
| Browser.CloseDistinct | app/components/ui/browser.tsx:254-271 | closing keeps tab ids distinct |
| Browser.Switched | app/components/ui/browser.tsx:277-280 | every tab is kept and active exactly when it has the chosen id |
| Browser.SwitchActivity | app/components/ui/browser.tsx:276-291 | switching changes only activity; with distinct ids, exactly the chosen tab becomes active; an unknown id leaves no tab active |
| Browser.TargetProperties | app/components/ui/browser.tsx:294-307 | the target always has an accepted scheme; rewriting it again changes nothing; it is secure iff the input was not already `http://` or `about:` |
| Browser.Navigated | app/components/ui/browser.tsx:309-320 | navigating keeps the number of tabs |
| Browser.NavigateOnlyActive | app/components/ui/browser.tsx:309-320 | only the active tab's url, title and loading flag change; every other tab is unchanged and the same tab stays active |
| Browser.Browser.constructor | app/components/ui/browser.tsx:96-161 | the tabs are the initial tabs with the first active; current and input url are the initial url; secure; no history and no bookmark; the state is valid (one active tab, distinct ids) with at most one initial tab, and with any number of initial tabs whose ids are apart (`SeedIdsApart`) |
| Browser.Browser.CreateNewTab | app/components/ui/browser.tsx:232-252 | no change at `maxTabs` or more tabs; otherwise the tab list gains one active blank tab, the current url becomes `about:blank`, the input clears, and the created tab is reported; exactly one active tab and distinct ids are kept |
| Browser.Browser.CloseTab | app/components/ui/browser.tsx:254-274 | no change with one tab; an unknown id with more tabs throws (reading `isActive` of `tabs[-1]`) and changes nothing; otherwise the tab is removed, activity and focus move as above, and the one-active and distinct-id invariant is kept |
| Browser.Browser.SwitchTab | app/components/ui/browser.tsx:276-291 | activity follows the chosen id and the urls follow the newly active tab; for a present id with distinct ids, exactly that tab is active and its url is current |
| Browser.Browser.NavigateToUrl | app/components/ui/browser.tsx:293-332 | current and input url become the rewritten target, secure iff it is `https://`; only the active tab is updated, with its hostname or `New Tab` as title; the reported id is that of the tab active before; the invariant is kept |
| Browser.Browser.GoBack | app/components/ui/browser.tsx:339-341 | only `canGoForward` is set |
| Browser.Browser.GoForward | app/components/ui/browser.tsx:343-345 | only `canGoBack` is set |
| Browser.Browser.ToggleBookmark | app/components/ui/browser.tsx:359-364 | the bookmark flag flips, and the current url is reported with the new flag; nothing else changes |
| Browser.ActiveTabFound | app/components/ui/browser.tsx:322 | with exactly one active tab, `find` returns it, so the navigation callback gets its id |
| Text.IndexOf | lib/get-llm-text.ts:115 | `indexOf`: the first position where the pattern occurs, or none when it occurs nowhere |
| Text.ContainsIff | app/components/ui/version-switcher.tsx:38-42 | `includes` holds iff the pattern occurs at some position |
| Text.Replace | scripts/generate-openapi-docs.ts:51 | `replace` with a string pattern leaves the text unchanged when the pattern does not occur |
| Text.ReplaceLiteral | scripts/generate-openapi-docs.ts:51 | with a replacement that holds no `$`, only the first occurrence is replaced, literally |
| Text.ExpandWithoutDollar | lib/get-llm-text.ts:115 | a replacement string without `$` expands to itself |
| Text.Split | scripts/generate-openapi-docs.ts:41 | `split` gives at least one part, no part holds the separator, and joining the parts gives back the text |
| Text.SplitJoin | scripts/generate-openapi-docs.ts:41 | splitting parts joined by a separator they do not contain gives back the parts |
| Text.NonEmpty | app/components/ui/version-switcher.tsx:31 | `filter(Boolean)` keeps only non-empty parts of the input, and every non-empty part |
| Text.NonEmptyOne | app/components/ui/version-switcher.tsx:31 | a single part is kept exactly when it is not empty |
| Text.NonEmptyAppend | app/components/ui/version-switcher.tsx:31 | filtering distributes over concatenation, so the kept parts keep their order and multiplicity |
| Text.Segments | scripts/generate-llm-files.ts:58 | the non-empty parts of a path contain no separator |
| Text.SegmentsOfPath | app/components/ui/version-switcher.tsx:31 | the segments of `/a/b/…` are `a`, `b`, … |
| Text.TrimStart | app/components/api-page.client.tsx:22 | removes exactly the leading white space |
| Text.TrimEnd | scripts/generate-llm-files.ts:167 | `trimEnd` removes exactly the trailing white space |
| Text.Trim | app/components/api-page.client.tsx:22 | the trimmed text neither starts nor ends with white space |
| Text.TrimShape | app/components/api-page.client.tsx:22 | the trimmed text is the slice of the input between white-space-only ends |
| Text.TrimTrimmed | app/components/api-page.client.tsx:22 | trimming text without white space at either end changes nothing |
| Text.TrimEmptyIff | app/components/api-page.client.tsx:22-25 | the trimmed text is empty iff the text is all white space |
| Text.ToLower | scripts/generate-openapi-docs.ts:7 | `toLowerCase` leaves no ASCII capital letter |
| Text.ToLowerIdentity | scripts/generate-openapi-docs.ts:7 | text without capitals is unchanged |
| Text.CapitalizeFrom | scripts/generate-llm-files.ts:62 | `replace(/\b\w/g, toUpperCase)`: exactly the word-initial characters are upper-cased |
| Text.DashesToSpaces | scripts/generate-llm-files.ts:61 | `replace(/-/g, " ")`: every dash becomes a space, nothing else changes |
| Text.Titleize | scripts/generate-llm-files.ts:60-62 | the title-cased segment has the same length and no dash |
| Text.LexLessIrreflexive | lib/source.ts:121 | string order is irreflexive |
| Text.LexLessTransitive | lib/source.ts:121 | string order is transitive |
| Text.LexLessTotal | lib/source.ts:121 | any two different strings are ordered |
| Text.LexLessAsymmetric | lib/source.ts:121 | string order is asymmetric |
| Text.CollapseLeavesNoTriple | lib/get-llm-text.ts:111 | `replace(/\n{3,}/g, "\n\n")` leaves no run of three newlines |
| Text.CollapseKeepsText | lib/get-llm-text.ts:111 | the collapse removes only newlines |
| Text.CollapseIdempotent | scripts/generate-llm-files.ts:298 | collapsing twice equals collapsing once |
| Sorting.LexLeqTransitive | scripts/generate-llm-files.ts:100-104 | the name order is transitive |
| Sorting.LexLeqTotal | scripts/generate-llm-files.ts:100-104 | the name order is total |
| Sorting.InsertSorted | scripts/generate-llm-files.ts:100-104 | inserting into a sorted list keeps it sorted and adds exactly the one element |
| Sorting.SortBySorted | scripts/generate-llm-files.ts:100-104 | the sort by name yields a sorted permutation of the pages |
| Sorting.SortByStable | scripts/generate-llm-files.ts:100-104 | the sort is stable: pages with equal names keep their input order |
| Sorting.Reverse | lib/source.ts:121 | reversal mirrors positions and is a permutation |
| Sorting.SortDescending | lib/source.ts:121 | the descending sort is a permutation ordered from greatest to least |
| Sorting.SortDescendingStrict | lib/source.ts:121 | on distinct versions the descending order is strict |

## Left out

- JavaScript strings count UTF-16 code units. The model's strings are sequences of Unicode
  characters. The two differ only for characters outside the Basic Multilingual Plane, for example
  in `slice(0, 100)` of the search dialog. The emoji test of `resolveIcon` uses a regular
  expression with the `u` flag, which reads one code point, as the model does.
- `localeCompare` is modelled by code-point order. The two agree on the `v<digits>` version names.
  They disagree on names that differ in letter case or punctuation: locale collation compares
  letters without regard to case first, so "Rate Limits" sorts before "REST API" and "apple" before
  "Banana", while code-point order puts both the other way round. The command palette's comparator is
  not affected: `getSectionFromUrl` only returns names from its fixed section list
  (`CommandPalette.SectionFromUrl`), so its `localeCompare` branch is never reached. The item
  order below is affected.
- LlmFiles.FormatPagesLines: the items are sorted by code-point order of the page names, not by
  `localeCompare`, so names that differ in case or punctuation can come out in another order than
  the source's (for example "REST API" before "Rate Limits").
- `toLowerCase` is modelled for ASCII letters and the two non-ASCII characters whose lower case
  holds ASCII letters. Other non-ASCII characters are kept as they are. In the slugs the filter
  that follows removes them anyway; the HTTP method that `getOperationId` lower-cases is ASCII.
- The regular-expression passes of `stripMDXComponents` run on a tokenised input: plain text,
  Callouts and CodeBlockTabs groups. The tag removal itself (`<(?![_])[^>]+>` and `<[^>]+>`) is
  exact at character level. Full regex semantics are not modelled, such as the back-reference
  `\1` in the CodeBlockTabs pattern or a Callout whose content contains another `</Callout>`.
- LlmText.RestoreCodeBlocks: splices each block back verbatim. The source's
  `cleaned.replace(placeholder, codeBlock)` expands `$$`, `$&`, `` $` `` and `$'` inside the block
  (see "Findings"). The two agree exactly when no code block holds `$`, as
  `LlmText.RestoreAsWrittenVerbatim` proves.
- LlmText.RestoreAll: the round trip is stated for the verbatim restore. For the source's restore
  it holds only when no code block holds `$` (`LlmText.RestoreAllAsWritten`).
- LlmText.StripMdxComponents: restores the code blocks verbatim, so it is the source's result only
  when no code block holds `$` (`LlmText.CleanMarkdownAgrees`); the same holds for
  `LlmText.CleanMarkdown` and for `LlmText.GetLlmText`, which is built on it.
- LlmText.StripMdxComponents: the division `parts` of the placeholder text into plain text,
  Callouts and tab groups is an input. It is constrained only to print back as that text, so the
  result is not a function of the text alone. For example, a Callout given as a plain part is only
  stripped of its tags instead of becoming a blockquote. Which division the source's
  case-insensitive, leftmost regular expressions pick is not modelled.
- LlmText.CodeBlocksSurvive: states the survival of code blocks for the verbatim restore. In the
  source a code block holding `$$`, `$&`, `` $` `` or `$'` comes back altered.
- `LlmText.Category`: the label table is looked up by its own keys only. A JavaScript object
  would also answer inherited names such as `constructor`.
- LlmFiles.GroupByCategory: groups are looked up by own key. In the source, `grouped` is a plain
  object, so a first slug naming an inherited property (`constructor`, `toString`, `valueOf`,
  `__proto__` and the like) finds a truthy value without `push` and throws. `buildOutline` and
  `buildFull` then fail, and the script logs the error and skips `llms.txt` or `llms-full.txt`. The
  model groups such pages like any other.
- LlmFiles.OutputPathServed: `path.join` normalises the path, and this is not modelled. The source
  writes "/docs//a", "/docs/./a" and "/docs/a" to the same file. Different urls get different files
  only in the model, which is the source's behaviour for urls whose segments are non-empty and
  neither `.` nor `..`.
- LlmFiles.AppendBlocks: formats every group's block first and then keeps the non-empty ones. The
  source formats and pushes in one loop; `formatPages` has no side effects, so the lines are the
  same.
- Record key order: `Object.entries` lists integer-like keys first. The grouping in
  `groupByCategory`/`orderedEntries` uses plain insertion order.
- File and network I/O are parameters or left out:
  - the `mkdir`/`writeFile` calls and `path.join` with `process.cwd()`;
  - the YAML loading of the OpenAPI specs;
  - `getText`, modelled as the `processed` argument and the `PageText` function of the full text;
  - the Orama `create`/`insert`/`save` calls, with the database modelled as an append-only list.
- fumadocs, lucide and Next.js objects are abstract parameters: page lists, page trees, the icon
  set and the `Response` object. Only the sitemap body is modelled, not its headers.
- The environment, the clock and browser APIs are parameters:
  - `process.env`;
  - `Date.now()` and `new Date()`/`toISOString()`;
  - `navigator.userAgent`;
  - `localStorage`, a map of strings;
  - `new URL(url).hostname` and `encodeURIComponent`.

  A URL that `new URL` rejects, which would throw inside `navigateToUrl`, is not modelled.
- Timers are not modelled:
  - the loading timer after a navigation;
  - `refresh` and the download simulation of the browser mock-up;
  - the focus timeout of the command palette.
- `Browser.Browser.CloseTab` works on values. The source sets `isActive` on a tab object that the
  old state shares. Callbacks (`onTabCreate`, `onTabClose`, `onTabSwitch`, `onNavigate`,
  `onBookmarkToggle`) are modelled as the methods' results.
- The palette's controlled mode (`open`/`onOpenChange` props), focus restoration and scrolling
  are not modelled; the model follows the uncontrolled state.
- Rendering, icons and styling are not modelled. Section icons are kept as names only.
- OpenApiSpec.SanitizeSpec: numbers in a document are integers (`Num(n: int)`); fractional YAML
  numbers are not represented. Scalars pass through sanitising unchanged either way.
- SitemapXml.Get: the date conversion `new Date(v).toISOString()` is the total function parameter
  `iso`. For an invalid front-matter date the source throws a `RangeError` and the sitemap request
  fails; the model always produces a document.
- SearchIndex.SearchDb.Insert: appends every entry. Orama's `insert` throws on an id that is
  already in the database (for example two headings with the same url), which stops the script;
  the model has no such failure.
- `Number.parseInt` is modelled on unbounded integers. Digit strings too long for a
  double-precision number are not rounded.

## Findings

| source | as written | input that shows it | evidently intended | confidence | as-written member | corrected member |
|---|---|---|---|---|---|---|
| app/components/ui/command-pallete.tsx:959-976 | `handlePaletteKeyDown` is bound on the dialog and on the search box inside it, and does not stop propagation, so a key typed in the box runs it twice and the two `setSelectedIndex(prev => …)` updates compose | with the blank search's four commands, ArrowDown typed in the box from the first command selects the third; the second and fourth are out of reach of the arrows, and over two items the arrows do not move | each arrow press moves the selection by one item | not executed | CommandPalette.InInputArrowsSkip | CommandPalette.ArrowKeys |
| lib/get-llm-text.ts:114-116 | code blocks are restored with `String.replace` and a string replacement, which expands `$$`, `$&`, `` $` `` and `$'` | a page whose only code block is "```$$```" comes back with the block "```$```" | every code block restored verbatim | not executed | LlmText.RestoreAsWrittenCorrupts | LlmText.RestoreRoundTrip |
