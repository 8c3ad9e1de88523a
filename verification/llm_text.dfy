/**
 * The plain-text export of a page for language models: where its source lives, the
 * clean-up of its MDX into plain markdown, and the header put in front of it.
 *
 * The clean-up first swaps every fenced code block for a numbered placeholder, then
 * rewrites the components and tags of the remaining text, collapses blank lines, and
 * finally puts the code blocks back.
 */
module LlmText {
  import opened Wrappers
  import opened Text
  import Source

  // ---------------------------------------------------------------------------
  // Source URL
  // ---------------------------------------------------------------------------

  const ApiRefPrefix: string := "/api-references"

  /** The content directory a page comes from. */
  function ContentRoot(url: string): (r: string)
    ensures r == "content/api-references" <==> StartsWith(url, ApiRefPrefix)
    ensures r == "content/docs" <==> !StartsWith(url, ApiRefPrefix)
  {
    if StartsWith(url, ApiRefPrefix) then "content/api-references" else "content/docs"
  }

  predicate Truthy(s: Option<string>) {
    s.Some? && s.value != ""
  }

  const RawHost: string := "https://raw.githubusercontent.com/"

  /** The configured branch, "main" when none is set. */
  function Branch(branch: Option<string>): string {
    if Truthy(branch) then branch.value else "main"
  }

  /**
   * `getSourceUrl`, with the repository and branch settings of the environment as
   * parameters: a raw file URL on the configured repository, else a path relative to the
   * project root.
   */
  function SourceUrl(url: string, path: string, repo: Option<string>, branch: Option<string>): string {
    var file := ContentRoot(url) + "/" + path;
    if Truthy(repo) then (RawHost + repo.value + "/") + (Branch(branch) + "/") + file
    else file
  }

  /**
   * The source URL always ends in the page's file under its content directory; with a
   * repository it is a raw file URL of that repository and branch.
   */
  lemma SourceUrlShape(url: string, path: string, repo: Option<string>, branch: Option<string>)
    ensures var file := ContentRoot(url) + "/" + path;
      var r := SourceUrl(url, path, repo, branch);
      EndsWith(r, file)
      && (Truthy(repo) ==> StartsWith(r, RawHost + repo.value + "/") && Contains(r, "/" + Branch(branch) + "/"))
      && (!Truthy(repo) ==> r == file)
  {
    var file := ContentRoot(url) + "/" + path;
    if Truthy(repo) {
      var head := RawHost + repo.value + "/";
      Framed(head, Branch(branch) + "/", file);
      var r := SourceUrl(url, path, repo, branch);
      var p := "/" + Branch(branch) + "/";
      assert r[|head| - 1..|head| - 1 + |p|] == p;
      assert OccursAt(r, p, |head| - 1);
      ContainsIff(r, p);
    } else {
      Framed("", "", file);
    }
  }

  /** A concatenation of three parts starts with the first and ends with the last. */
  lemma Framed(a: string, b: string, c: string)
    ensures StartsWith(a + b + c, a) && EndsWith(a + b + c, c)
  {
    assert (a + b + c)[..|a|] == a;
    assert (a + b + c)[|a + b|..] == c;
  }

  // ---------------------------------------------------------------------------
  // Fenced code blocks and their placeholders
  // ---------------------------------------------------------------------------

  const Fence: string := "```"

  /** Where the first match of /```[\s\S]*?```/ in `s` starts and ends. */
  function NextBlock(s: string): (r: Option<(nat, nat)>)
    ensures r.Some? ==> r.value.0 + 6 <= r.value.1 <= |s|
  {
    match IndexOf(s, Fence)
    case None => None
    case Some(i) =>
      match IndexOf(s[i + 3..], Fence)
      case None => None
      case Some(j) => Some((i, i + 3 + j + 3))
  }

  /**
   * The block found starts at the first fence of the text and ends with the nearest fence
   * after it (the lazy match); when none is found, no fence has another after it.
   */
  lemma NextBlockShape(s: string)
    ensures match NextBlock(s)
      case Some((i, e)) =>
        OccursAt(s, Fence, i) && OccursAt(s, Fence, e - 3)
        && (forall j :: 0 <= j < i ==> !OccursAt(s, Fence, j))
        && (forall j :: i + 3 <= j < e - 3 ==> !OccursAt(s, Fence, j))
      case None => forall i, j :: 0 <= i && i + 3 <= j && OccursAt(s, Fence, i) ==> !OccursAt(s, Fence, j)
  {
    match IndexOf(s, Fence)
    case None =>
    case Some(i) =>
      match IndexOf(s[i + 3..], Fence)
      case None => NoLaterOccurrence(s, Fence, i + 3);
      case Some(j) => NearestLaterOccurrence(s, Fence, i + 3, j);
  }

  /** No occurrence in the suffix from `a` means no occurrence in the text at or after `a`. */
  lemma NoLaterOccurrence(s: string, p: string, a: nat)
    requires a <= |s| && forall k :: 0 <= k <= |s| - a ==> !OccursAt(s[a..], p, k)
    ensures forall b :: a <= b ==> !OccursAt(s, p, b)
  {
    forall b | a <= b ensures !OccursAt(s, p, b) {
      if b <= |s| {
        OccursDrop(s, p, a, b - a);
      }
    }
  }

  /** The first occurrence in the suffix from `a` is the nearest one at or after `a` in the text. */
  lemma NearestLaterOccurrence(s: string, p: string, a: nat, j: nat)
    requires a <= |s| && OccursAt(s[a..], p, j) && forall k :: 0 <= k < j ==> !OccursAt(s[a..], p, k)
    ensures OccursAt(s, p, a + j)
    ensures forall b :: a <= b < a + j ==> !OccursAt(s, p, b)
  {
    OccursDrop(s, p, a, j);
    forall b | a <= b < a + j ensures !OccursAt(s, p, b) {
      OccursDrop(s, p, a, b - a);
    }
  }

  /** The fenced code blocks of `s`, in order, as the regular expression's `exec` loop collects them. */
  function Blocks(s: string): seq<string>
    decreases |s|
  {
    match NextBlock(s)
    case None => []
    case Some((i, e)) => [s[i..e]] + Blocks(s[e..])
  }

  const Marker: string := "__CODE_BLOCK_"

  function DigitChar(d: nat): (c: char)
    requires d < 10
    ensures '0' <= c <= '9'
  {
    ('0' as int + d) as char
  }

  /** The decimal numeral of `n`. */
  function NatString(n: nat): (r: string)
    ensures |r| >= 1 && forall i :: 0 <= i < |r| ==> '0' <= r[i] <= '9'
  {
    if n < 10 then [DigitChar(n)] else NatString(n / 10) + [DigitChar(n % 10)]
  }

  /** Different numbers have different numerals. */
  lemma {:induction false} NatStringInjective(a: nat, b: nat)
    requires NatString(a) == NatString(b)
    ensures a == b
    decreases a
  {
    if a < 10 && b < 10 {
      assert DigitChar(a) == NatString(b)[0] == DigitChar(b);
    } else if a >= 10 && b >= 10 {
      var sa, sb := NatString(a / 10), NatString(b / 10);
      var s := NatString(a);
      assert s == sa + [DigitChar(a % 10)] == sb + [DigitChar(b % 10)];
      assert sa == s[..|s| - 1] == sb;
      NatStringInjective(a / 10, b / 10);
      assert DigitChar(a % 10) == s[|s| - 1] == DigitChar(b % 10);
    }
  }

  /** The placeholder of the `k`-th code block (counting from 0). */
  function Placeholder(k: nat): (r: string)
    ensures |r| >= |Marker| + 3 && r[..|Marker|] == Marker && r[|Marker|] == NatString(k)[0]
    ensures r[|r| - 2..] == "__"
  {
    Marker + NatString(k) + "__"
  }

  /** The text with its `k`-th and later code blocks replaced by their placeholders, numbered from `k`. */
  function WithPlaceholders(s: string, k: nat): string
    decreases |s|
  {
    match NextBlock(s)
    case None => s
    case Some((i, e)) => s[..i] + Placeholder(k) + WithPlaceholders(s[e..], k + 1)
  }

  /** The blocks collected so far, then the one just found, then the rest. */
  lemma BlocksAdvance(all: seq<string>, done: seq<string>, rest: seq<string>, block: string, later: seq<string>)
    requires all == done + rest && rest == [block] + later
    ensures all == (done + [block]) + later
  {
  }

  /** The extraction loop: `exec` from `lastIndex` until no block is left. */
  method ExtractCodeBlocks(text: string) returns (codeBlocks: seq<string>)
    ensures codeBlocks == Blocks(text)
  {
    codeBlocks := [];
    var lastIndex := 0;
    var rest := text;
    var m := NextBlock(rest);
    ghost var all := Blocks(text);
    while m.Some?
      invariant lastIndex <= |text| && rest == text[lastIndex..]
      invariant m == NextBlock(rest)
      invariant all == codeBlocks + Blocks(rest)
      decreases |rest|
    {
      var (i, e) := m.value;
      var block := rest[i..e];
      BlocksAdvance(all, codeBlocks, Blocks(rest), block, Blocks(rest[e..]));
      codeBlocks := codeBlocks + [block];
      lastIndex := lastIndex + e;
      rest := rest[e..];
      m := NextBlock(rest);
    }
    assert codeBlocks + [] == codeBlocks;
  }

  // ---------------------------------------------------------------------------
  // Restoring the code blocks
  // ---------------------------------------------------------------------------

  /** The first occurrence of `p` replaced by `block`, character for character. */
  function Splice(s: string, p: string, block: string): string {
    match IndexOf(s, p)
    case None => s
    case Some(i) => s[..i] + block + s[i + |p|..]
  }

  /** Putting the blocks back in order, the block at position `j` of `blocks` in place of placeholder `k + j`. */
  function RestoreFrom(s: string, blocks: seq<string>, k: nat): string
    decreases |blocks|
  {
    if |blocks| == 0 then s else RestoreFrom(Splice(s, Placeholder(k), blocks[0]), blocks[1..], k + 1)
  }

  /**
   * The restore as the source writes it: `cleaned.replace(placeholder, codeBlock)` with a
   * string replacement, which expands `$$`, `$&`, `` $` `` and `$'` inside the block.
   */
  function RestoreAsWritten(s: string, blocks: seq<string>, k: nat): string
    decreases |blocks|
  {
    if |blocks| == 0 then s else RestoreAsWritten(Replace(s, Placeholder(k), blocks[0]), blocks[1..], k + 1)
  }

  /** For blocks without `$`, the restore as the source writes it is the verbatim one. */
  lemma {:induction false} RestoreAsWrittenVerbatim(s: string, blocks: seq<string>, k: nat)
    requires forall j :: 0 <= j < |blocks| ==> '$' !in blocks[j]
    ensures RestoreAsWritten(s, blocks, k) == RestoreFrom(s, blocks, k)
    decreases |blocks|
  {
    if |blocks| > 0 {
      ReplaceLiteral(s, Placeholder(k), blocks[0]);
      var next := Replace(s, Placeholder(k), blocks[0]);
      assert next == Splice(s, Placeholder(k), blocks[0]);
      forall j | 0 <= j < |blocks[1..]| ensures '$' !in blocks[1..][j] {
        assert blocks[1..][j] == blocks[j + 1];
      }
      RestoreAsWrittenVerbatim(next, blocks[1..], k + 1);
    }
  }

  /** The restore loop over the code blocks, splicing each block in verbatim. */
  method RestoreCodeBlocks(cleaned: string, codeBlocks: seq<string>) returns (r: string)
    ensures r == RestoreFrom(cleaned, codeBlocks, 0)
  {
    r := cleaned;
    for index := 0 to |codeBlocks|
      invariant RestoreFrom(cleaned, codeBlocks, 0) == RestoreFrom(r, codeBlocks[index..], index)
    {
      assert codeBlocks[index..][1..] == codeBlocks[index + 1..];
      r := Splice(r, Placeholder(index), codeBlocks[index]);
    }
    assert codeBlocks[|codeBlocks|..] == [];
  }

  /**
   * In a text free of the marker, a placeholder appended to it is found exactly where it
   * was put: no earlier match, not even one reaching into the placeholder.
   */
  lemma PlaceholderFirst(pre: string, k: nat, post: string)
    requires !Contains(pre, Marker)
    ensures IndexOf(pre + Placeholder(k) + post, Placeholder(k)) == Some(|pre|)
  {
    var p := Placeholder(k);
    var s := pre + p + post;
    assert s[|pre|..|pre| + |p|] == p;
    ContainsIff(pre, Marker);
    forall j | 0 <= j < |pre| ensures !OccursAt(s, p, j) {
      if j + |Marker| <= |pre| {
        assert !OccursAt(pre, Marker, j);
        assert s[j..j + |Marker|] == pre[j..j + |Marker|];
        assert p[..|Marker|] == Marker;
      } else {
        var d := |pre| - j;
        assert s[j + d] == '_' && s[j + d + 1] == '_';
        assert d + 1 < |Marker| ==> p[d + 1] == Marker[d + 1];
        assert p[d] == Marker[d];
      }
    }
    assert OccursAt(s, p, |pre|);
    var r := IndexOf(s, p);
    assert r.Some? && r.value <= |pre|;
    assert !(r.value < |pre|) by { assert OccursAt(s, p, r.value); }
  }

  /** Splicing a block in for a placeholder that follows marker-free text replaces exactly that placeholder. */
  lemma SpliceAfter(before: string, k: nat, w: string, block: string)
    requires !Contains(before, Marker)
    ensures Splice(before + Placeholder(k) + w, Placeholder(k), block) == before + block + w
  {
    var x := before + Placeholder(k) + w;
    PlaceholderFirst(before, k, w);
    assert x[..|before|] == before && x[|before| + |Placeholder(k)|..] == w;
  }

  /** Both functions over the blocks of `s`, unfolded at its first block. */
  lemma BlocksUnfold(s: string, k: nat, i: nat, e: nat)
    requires NextBlock(s) == Some((i, e))
    ensures e <= |s| && Blocks(s) == [s[i..e]] + Blocks(s[e..])
    ensures WithPlaceholders(s, k) == s[..i] + Placeholder(k) + WithPlaceholders(s[e..], k + 1)
  {
  }

  lemma RestoreCons(x: string, block: string, blocks: seq<string>, k: nat)
    ensures RestoreFrom(x, [block] + blocks, k) == RestoreFrom(Splice(x, Placeholder(k), block), blocks, k + 1)
  {
    assert ([block] + blocks)[1..] == blocks;
  }

  lemma PrefixWithoutMarker(pre: string, s: string, n: nat)
    requires n <= |s| && !Contains(pre + s, Marker)
    ensures !Contains(pre + s[..n], Marker)
  {
    assert pre + s[..n] == (pre + s)[..|pre| + n];
    NotContainedPrefix(pre + s, Marker, |pre| + n);
  }

  /** Restoring the first placeholder of `pre + s[..i]` followed by a placeholder puts the block `s[i..e]` back. */
  lemma SpliceBlock(pre: string, s: string, k: nat, i: nat, e: nat, w: string)
    requires i <= e <= |s| && !Contains(pre + s, Marker)
    ensures Splice((pre + s[..i]) + Placeholder(k) + w, Placeholder(k), s[i..e]) == (pre + s[..e]) + w
  {
    PrefixWithoutMarker(pre, s, i);
    SpliceAfter(pre + s[..i], k, w, s[i..e]);
    assert (pre + s[..i]) + s[i..e] == pre + s[..e];
  }

  /** One block of the round trip: restoring the first placeholder gives back the text up to the end of its block. */
  lemma RestoreStep(pre: string, s: string, k: nat, i: nat, e: nat)
    requires NextBlock(s) == Some((i, e))
    requires !Contains(pre + s, Marker)
    ensures 0 < e <= |s| && (pre + s[..e]) + s[e..] == pre + s
    ensures RestoreFrom(pre + WithPlaceholders(s, k), Blocks(s), k)
         == RestoreFrom((pre + s[..e]) + WithPlaceholders(s[e..], k + 1), Blocks(s[e..]), k + 1)
  {
    assert (pre + s[..e]) + s[e..] == pre + s;
    BlocksUnfold(s, k, i, e);
    var w := WithPlaceholders(s[e..], k + 1);
    var x := (pre + s[..i]) + Placeholder(k) + w;
    assert pre + WithPlaceholders(s, k) == x;
    RestoreCons(x, s[i..e], Blocks(s[e..]), k);
    SpliceBlock(pre, s, k, i, e, w);
  }

  /**
   * Code blocks survive the placeholder round trip: putting the blocks back into the text
   * with placeholders gives the original text, provided it never spells the marker itself.
   */
  lemma {:induction false} RestoreRoundTrip(pre: string, s: string, k: nat)
    requires !Contains(pre + s, Marker)
    ensures RestoreFrom(pre + WithPlaceholders(s, k), Blocks(s), k) == pre + s
    decreases |s|
  {
    var nb := NextBlock(s);
    if nb.Some? {
      var (i, e) := nb.value;
      RestoreStep(pre, s, k, i, e);
      RestoreRoundTrip(pre + s[..e], s[e..], k + 1);
    } else {
      RestoreNoBlock(pre, s, k);
    }
  }

  /** A text without blocks has no placeholders to restore. */
  lemma RestoreNoBlock(pre: string, s: string, k: nat)
    requires NextBlock(s).None?
    ensures RestoreFrom(pre + WithPlaceholders(s, k), Blocks(s), k) == pre + s
  {
    assert WithPlaceholders(s, k) == s && Blocks(s) == [];
  }

  /** The fence after the two dollar signs is the first one in "$$```". */
  lemma DollarTail()
    ensures IndexOf("$$```", Fence) == Some(2)
  {
    var t := "$$```";
    assert t[2..5] == Fence;
    assert !OccursAt(t, Fence, 0) by { assert t[0..3][0] == '$'; }
    assert !OccursAt(t, Fence, 1) by { assert t[1..4][0] == '$'; }
    IndexOfFirst(t, Fence, 2);
  }

  /** "```$$```" is a single block running to the end of the text. */
  lemma DollarBlock()
    ensures NextBlock("```$$```") == Some((0, 8))
  {
    var s := "```$$```";
    assert s[0..3] == Fence;
    IndexOfFirst(s, Fence, 0);
    assert s[3..] == "$$```";
    DollarTail();
  }

  /** The empty text has no block. */
  lemma NoBlockInEmpty()
    ensures NextBlock("") == None && Blocks("") == [] && WithPlaceholders("", 1) == ""
  {
    assert IndexOf("", Fence) == None;
  }

  lemma DollarBlocks()
    ensures Blocks("```$$```") == ["```$$```"] && WithPlaceholders("```$$```", 0) == Placeholder(0)
  {
    var s := "```$$```";
    DollarBlock();
    NoBlockInEmpty();
    assert s[8..] == "" && s[..0] == "" && s[0..8] == s;
    assert Blocks(s) == [s] + Blocks("");
    assert WithPlaceholders(s, 0) == "" + Placeholder(0) + WithPlaceholders("", 1);
  }

  /** A string replacement turns the `$$` of "```$$```" into a single `$`. */
  lemma ExpandDollars(matched: string, before: string, after: string)
    ensures ExpandReplacement("```$$```", matched, before, after) == "```$```"
  {
    var rep := "```$$```";
    assert rep[1..] == "``$$```" && rep[1..][1..] == "`$$```" && rep[1..][1..][1..] == "$$```";
    var tail := "```";
    assert "$$```"[2..] == tail;
    assert tail[1..] == "``" && tail[1..][1..] == "`" && tail[1..][1..][1..] == "";
    assert ExpandReplacement(tail, matched, before, after) == tail;
  }

  /** A placeholder is found at the start of itself. */
  lemma PlaceholderSelf(k: nat)
    ensures IndexOf(Placeholder(k), Placeholder(k)) == Some(0)
  {
    assert StartsWith(Placeholder(k), Placeholder(k));
  }

  /** Replacing a whole placeholder by "```$$```" with a string replacement, and verbatim. */
  lemma ReplacePlaceholderByDollars(k: nat)
    ensures Replace(Placeholder(k), Placeholder(k), "```$$```") == "```$```"
    ensures Splice(Placeholder(k), Placeholder(k), "```$$```") == "```$$```"
  {
    var p := Placeholder(k);
    PlaceholderSelf(k);
    assert p[..0] == "" && p[|p|..] == "";
    ExpandDollars(p, "", "");
  }

  /**
   * The restore as written corrupts a block holding `$$`: the text "```$$```" comes back
   * as "```$```", while the verbatim restore gives it back unchanged.
   */
  lemma RestoreAsWrittenCorrupts()
    ensures var s := "```$$```";
      Blocks(s) == [s] && WithPlaceholders(s, 0) == Placeholder(0)
      && RestoreAsWritten(Placeholder(0), [s], 0) == "```$```"
      && RestoreFrom(Placeholder(0), [s], 0) == s
  {
    DollarBlocks();
    ReplacePlaceholderByDollars(0);
  }

  // ---------------------------------------------------------------------------
  // Tags
  // ---------------------------------------------------------------------------

  /**
   * The length of the tag `s` starts with, if it starts with one: `<`, at least one
   * character other than `>`, then the nearest `>`. With `keepUnderscore` a `<` followed
   * by `_` starts no tag (the `(?![_])` guard of the final pass).
   */
  function TagLen(s: string, keepUnderscore: bool): (r: Option<nat>)
    ensures r.Some? ==> 3 <= r.value <= |s| && s[0] == '<' && s[r.value - 1] == '>'
  {
    if |s| >= 2 && s[0] == '<' && s[1] != '>' && !(keepUnderscore && s[1] == '_') then
      match IndexOf(s[1..], ">")
      case None => None
      case Some(j) =>
        assert s[1..][j..j + 1] == ">";
        Some(j + 2)
    else None
  }

  /** No tag starts anywhere in `s`. */
  predicate TagFree(s: string, keepUnderscore: bool) {
    forall i :: 0 <= i <= |s| ==> TagLen(s[i..], keepUnderscore).None?
  }

  /**
   * `s.replace(/<[^>]+>/g, "")`, or `s.replace(/<(?![_])[^>]+>/g, "")` with
   * `keepUnderscore`: every tag removed, scanning from the left.
   */
  function StripTags(s: string, keepUnderscore: bool): (r: string)
    ensures |r| <= |s|
    ensures forall i :: 0 <= i < |r| ==> r[i] in s
    decreases |s|
  {
    if |s| == 0 then ""
    else match TagLen(s, keepUnderscore)
      case Some(n) =>
        var r := StripTags(s[n..], keepUnderscore);
        assert forall c :: c in s[n..] ==> c in s;
        r
      case None =>
        var t := StripTags(s[1..], keepUnderscore);
        assert forall c :: c in s[1..] ==> c in s;
        [s[0]] + t
  }

  /** A text without `<` holds no tag. */
  lemma NoOpenerTagFree(s: string, keepUnderscore: bool)
    requires '<' !in s
    ensures TagFree(s, keepUnderscore)
  {
    forall i | 0 <= i <= |s| ensures TagLen(s[i..], keepUnderscore).None? {
      if i < |s| { assert s[i..][0] == s[i]; }
    }
  }

  /** Stripping a text that holds no tag leaves it as it is. */
  lemma {:induction false} StripTagFree(s: string, keepUnderscore: bool)
    requires TagFree(s, keepUnderscore)
    ensures StripTags(s, keepUnderscore) == s
    decreases |s|
  {
    if |s| > 0 {
      assert s[0..] == s;
      forall i | 0 <= i <= |s[1..]| ensures TagLen(s[1..][i..], keepUnderscore).None? {
        assert s[1..][i..] == s[i + 1..];
      }
      StripTagFree(s[1..], keepUnderscore);
    }
  }

  /** A text with no `>` after its first character does not start with a tag. */
  lemma NoCloserTagLen(s: string, keepUnderscore: bool)
    requires |s| >= 1 && '>' !in s[1..]
    ensures TagLen(s, keepUnderscore).None?
  {
    AbsentCharNotContained(s[1..], ">", 0);
  }

  /** Stripping leaves no tag behind, not even one formed by text around a removed tag. */
  lemma {:induction false} StripTagsLeavesNoTag(s: string, keepUnderscore: bool)
    ensures TagFree(StripTags(s, keepUnderscore), keepUnderscore)
    decreases |s|
  {
    if |s| > 0 {
      match TagLen(s, keepUnderscore)
      case Some(n) =>
        StripTagsLeavesNoTag(s[n..], keepUnderscore);
      case None =>
        var t := StripTags(s[1..], keepUnderscore);
        var r := [s[0]] + t;
        StripTagsLeavesNoTag(s[1..], keepUnderscore);
        forall i | 1 <= i <= |r| ensures TagLen(r[i..], keepUnderscore).None? {
          assert r[i..] == t[i - 1..];
        }
        assert TagLen(r, keepUnderscore).None? by {
          HeadNotTag(s, keepUnderscore);
        }
        assert r[0..] == r;
    }
  }

  /**
   * A character that starts no tag in `s` starts none in the stripped text either: what
   * follows it there is either the same character or no `>` at all.
   */
  lemma HeadNotTag(s: string, keepUnderscore: bool)
    requires |s| > 0 && TagLen(s, keepUnderscore).None?
    ensures TagLen([s[0]] + StripTags(s[1..], keepUnderscore), keepUnderscore).None?
  {
    var t := StripTags(s[1..], keepUnderscore);
    var r := [s[0]] + t;
    assert r[1..] == t;
    if s[0] == '<' && |s| >= 2 && s[1] != '>' && !(keepUnderscore && s[1] == '_') {
      assert !Contains(s[1..], ">");
      assert '>' !in s[1..] by {
        ContainsIff(s[1..], ">");
        forall k | 0 <= k < |s[1..]| ensures s[1..][k] != '>' {
          if s[1..][k] == '>' { assert OccursAt(s[1..], ">", k); }
        }
      }
      NoCloserTagLen(r, keepUnderscore);
    } else if s[0] == '<' && |s| >= 2 {
      assert TagLen(s[1..], keepUnderscore).None?;
      assert t[0] == s[1];
    }
  }

  /** Stripping tags twice is stripping them once. */
  lemma StripTagsIdempotent(s: string, keepUnderscore: bool)
    ensures StripTags(StripTags(s, keepUnderscore), keepUnderscore) == StripTags(s, keepUnderscore)
  {
    StripTagsLeavesNoTag(s, keepUnderscore);
    StripTagFree(StripTags(s, keepUnderscore), keepUnderscore);
  }

  // ---------------------------------------------------------------------------
  // Callouts
  // ---------------------------------------------------------------------------

  /** The text prefix of a callout of the given `type`; an untyped callout has none. */
  function CalloutPrefix(kind: Option<string>): (r: string)
    ensures r == "[WARNING] " <==> kind == Some("warning")
    ensures r == "[ERROR] " <==> kind == Some("error")
    ensures r == "[INFO] " <==> kind == Some("info")
    ensures r == "" <==> kind != Some("warning") && kind != Some("error") && kind != Some("info")
  {
    if kind == Some("warning") then "[WARNING] "
    else if kind == Some("error") then "[ERROR] "
    else if kind == Some("info") then "[INFO] "
    else ""
  }

  /** A callout becomes a blockquote of its tag-stripped, trimmed content, or nothing when that is empty. */
  function RenderCallout(kind: Option<string>, body: string): string {
    var clean := Trim(StripTags(body, false));
    if clean == "" then "" else "> " + CalloutPrefix(kind) + clean
  }

  /**
   * A callout whose content holds no tag becomes a blockquote of that content, trimmed,
   * behind the prefix of its type; a blank one disappears.
   */
  lemma CalloutOfText(kind: Option<string>, body: string)
    requires '<' !in body
    ensures AllSpace(body) ==> RenderCallout(kind, body) == ""
    ensures !AllSpace(body) ==> RenderCallout(kind, body) == "> " + CalloutPrefix(kind) + Trim(body)
  {
    NoOpenerTagFree(body, false);
    StripTagFree(body, false);
    TrimEmptyIff(body);
  }

  // ---------------------------------------------------------------------------
  // Code block tabs
  // ---------------------------------------------------------------------------

  /** One `<CodeBlockTab value="...">` and what it holds. */
  datatype Tab = Tab(value: string, content: string)

  /** The first tab with the given value. */
  function TabWithValue(tabs: seq<Tab>, v: string): (r: Option<nat>)
    ensures r.Some? ==> r.value < |tabs| && tabs[r.value].value == v
    ensures r.Some? ==> forall j :: 0 <= j < r.value ==> tabs[j].value != v
    ensures r.None? ==> forall j :: 0 <= j < |tabs| ==> tabs[j].value != v
  {
    if |tabs| == 0 then None
    else if tabs[0].value == v then Some(0)
    else match TabWithValue(tabs[1..], v)
      case None => None
      case Some(i) => Some(i + 1)
  }

  /**
   * The tab whose content is kept: the first tab whose value is the default value, else
   * the first tab.
   */
  function ChosenTab(defaultValue: string, tabs: seq<Tab>): (r: Option<Tab>)
    ensures r.None? <==> |tabs| == 0
    ensures forall i :: (0 <= i < |tabs| && tabs[i].value == defaultValue
      && (forall j :: 0 <= j < i ==> tabs[j].value != defaultValue)) ==> r == Some(tabs[i])
    ensures |tabs| > 0 && (forall i :: 0 <= i < |tabs| ==> tabs[i].value != defaultValue) ==> r == Some(tabs[0])
  {
    match TabWithValue(tabs, defaultValue)
    case Some(i) => Some(tabs[i])
    case None => if |tabs| == 0 then None else Some(tabs[0])
  }

  /** The length of the run of decimal digits `s` starts with. */
  function DigitRun(s: string): (n: nat)
    ensures n <= |s| && (forall i :: 0 <= i < n ==> '0' <= s[i] <= '9')
    ensures n == |s| || !('0' <= s[n] <= '9')
  {
    if |s| > 0 && '0' <= s[0] <= '9' then 1 + DigitRun(s[1..]) else 0
  }

  /** /__CODE_BLOCK_\d+__/ matches at `i`. */
  predicate PlaceholderAt(s: string, i: int) {
    0 <= i && i + |Marker| <= |s| && s[i..i + |Marker|] == Marker
    && var d := DigitRun(s[i + |Marker|..]);
      d >= 1 && StartsWith(s[i + |Marker| + d..], "__")
  }

  /** Where the placeholder at `i` ends. */
  function PlaceholderEnd(s: string, i: int): (e: nat)
    requires PlaceholderAt(s, i)
    ensures i + |Marker| + 3 <= e <= |s|
  {
    i + |Marker| + DigitRun(s[i + |Marker|..]) + 2
  }

  /** The first index at or after `from` where a placeholder starts. */
  function PlaceholderFrom(s: string, from: nat): (r: Option<nat>)
    requires from <= |s|
    ensures r.Some? ==> from <= r.value && PlaceholderAt(s, r.value)
    ensures r.Some? ==> forall j :: from <= j < r.value ==> !PlaceholderAt(s, j)
    ensures r.None? ==> forall j :: from <= j <= |s| ==> !PlaceholderAt(s, j)
    decreases |s| - from
  {
    if PlaceholderAt(s, from) then Some(from)
    else if from == |s| then None
    else PlaceholderFrom(s, from + 1)
  }

  /** `content.match(CODE_BLOCK_PLACEHOLDER_REGEX)?.[0] ?? ""`: the first placeholder in the text, or "". */
  function FirstPlaceholder(s: string): string {
    match PlaceholderFrom(s, 0)
    case None => ""
    case Some(i) => s[i..PlaceholderEnd(s, i)]
  }

  /** A placeholder match runs from the marker to the closing underscores. */
  lemma PlaceholderSlice(s: string, i: int)
    requires PlaceholderAt(s, i)
    ensures var r := s[i..PlaceholderEnd(s, i)];
      StartsWith(r, Marker) && EndsWith(r, "__") && Contains(s, r)
  {
    var r := s[i..PlaceholderEnd(s, i)];
    assert OccursAt(s, r, i);
    ContainsIff(s, r);
    var d := DigitRun(s[i + |Marker|..]);
    assert r[..|Marker|] == s[i..i + |Marker|];
    assert r[|r| - 2..] == s[i + |Marker| + d..][..2];
  }

  /** What is found is a placeholder taken from the text; nothing is found only when the text holds none. */
  lemma FirstPlaceholderShape(s: string)
    ensures var r := FirstPlaceholder(s);
      (r != "" ==> StartsWith(r, Marker) && EndsWith(r, "__") && Contains(s, r))
      && (r == "" <==> forall j :: 0 <= j <= |s| ==> !PlaceholderAt(s, j))
  {
    var m := PlaceholderFrom(s, 0);
    if m.Some? {
      PlaceholderSlice(s, m.value);
    }
  }

  lemma {:induction false} DigitRunOf(digits: string, rest: string)
    requires forall i :: 0 <= i < |digits| ==> '0' <= digits[i] <= '9'
    requires rest == [] || !('0' <= rest[0] <= '9')
    ensures DigitRun(digits + rest) == |digits|
    decreases |digits|
  {
    if |digits| > 0 {
      assert (digits + rest)[1..] == digits[1..] + rest;
      DigitRunOf(digits[1..], rest);
    } else {
      assert digits + rest == rest;
    }
  }

  /** The placeholder of block `k` is matched where it stands. */
  lemma PlaceholderMatches(pre: string, k: nat, post: string)
    ensures PlaceholderAt(pre + Placeholder(k) + post, |pre|)
    ensures PlaceholderEnd(pre + Placeholder(k) + post, |pre|) == |pre| + |Placeholder(k)|
  {
    var s := pre + Placeholder(k) + post;
    var m := |pre| + |Marker|;
    var num := NatString(k);
    assert s[|pre|..m] == Marker;
    assert s[m..] == num + ("__" + post);
    DigitRunOf(num, "__" + post);
    assert s[m + |num|..][..2] == "__";
  }

  /** A text with no `_` before a placeholder yields that placeholder. */
  lemma PlaceholderFirstMatch(pre: string, k: nat, post: string)
    requires '_' !in pre
    ensures FirstPlaceholder(pre + Placeholder(k) + post) == Placeholder(k)
  {
    var s := pre + Placeholder(k) + post;
    PlaceholderMatches(pre, k, post);
    forall j | 0 <= j < |pre| ensures !PlaceholderAt(s, j) {
      assert s[j] == pre[j];
      assert Marker[0] == '_';
    }
    var r := PlaceholderFrom(s, 0);
    assert r.Some? && r.value <= |pre|;
    assert r.value == |pre|;
    assert s[|pre|..|pre| + |Placeholder(k)|] == Placeholder(k);
  }

  /** `<CodeBlockTabs>` keeps the first placeholder of the chosen tab and nothing else. */
  function RenderTabs(defaultValue: string, tabs: seq<Tab>): string {
    match ChosenTab(defaultValue, tabs)
    case None => ""
    case Some(t) => FirstPlaceholder(t.content)
  }

  /** The code block of the chosen tab is kept. */
  lemma ChosenTabBlock(defaultValue: string, tabs: seq<Tab>, pre: string, k: nat, post: string)
    requires ChosenTab(defaultValue, tabs).Some?
    requires ChosenTab(defaultValue, tabs).value.content == pre + Placeholder(k) + post
    requires '_' !in pre
    ensures RenderTabs(defaultValue, tabs) == Placeholder(k)
  {
    PlaceholderFirstMatch(pre, k, post);
  }

  /** The code blocks of the other tabs are dropped: of two tabs, only the default one's block is kept. */
  lemma OtherTabsDropped()
    ensures RenderTabs("npm", [Tab("pnpm", Placeholder(0)), Tab("npm", Placeholder(1))]) == Placeholder(1)
  {
    var tabs := [Tab("pnpm", Placeholder(0)), Tab("npm", Placeholder(1))];
    assert ChosenTab("npm", tabs) == Some(tabs[1]);
    assert tabs[1].content == "" + Placeholder(1) + "";
    PlaceholderFirstMatch("", 1, "");
  }

  // ---------------------------------------------------------------------------
  // The clean-up
  // ---------------------------------------------------------------------------

  /**
   * The text with placeholders, cut into the pieces the component passes act on: plain
   * text, a `<Callout>` (with its `type`, if any) and a `<CodeBlockTabs>` group.
   */
  datatype Part =
    | Plain(text: string)
    | Callout(kind: Option<string>, body: string)
    | CodeTabs(defaultValue: string, tabs: seq<Tab>)

  function PrintTabs(tabs: seq<Tab>): string {
    if |tabs| == 0 then ""
    else "<CodeBlockTab value=\"" + tabs[0].value + "\">" + tabs[0].content + "</CodeBlockTab>" + PrintTabs(tabs[1..])
  }

  /** The MDX a part is written as. */
  function PrintPart(p: Part): string {
    match p
    case Plain(text) => text
    case Callout(None, body) => "<Callout>" + body + "</Callout>"
    case Callout(Some(kind), body) => "<Callout type=\"" + kind + "\">" + body + "</Callout>"
    case CodeTabs(v, tabs) => "<CodeBlockTabs defaultValue=\"" + v + "\">" + PrintTabs(tabs) + "</CodeBlockTabs>"
  }

  function Print(parts: seq<Part>): string {
    if |parts| == 0 then "" else PrintPart(parts[0]) + Print(parts[1..])
  }

  /** The component passes on one part: callouts become blockquotes, tab groups their kept placeholder. */
  function RenderPart(p: Part): string {
    match p
    case Plain(text) => text
    case Callout(kind, body) => RenderCallout(kind, body)
    case CodeTabs(v, tabs) => RenderTabs(v, tabs)
  }

  function RenderParts(parts: seq<Part>): string {
    if |parts| == 0 then "" else RenderPart(parts[0]) + RenderParts(parts[1..])
  }

  /**
   * `stripMDXComponents(text)`, where `parts` is how the text with placeholders divides
   * into components: the component passes, the removal of the remaining tags, the
   * newline collapse, the restore of the code blocks and the final trim.
   */
  function CleanMarkdown(text: string, parts: seq<Part>): string
    requires Print(parts) == WithPlaceholders(text, 0)
  {
    Trim(RestoreFrom(CollapseNewlines(StripTags(RenderParts(parts), true)), Blocks(text), 0))
  }

  /** `stripMDXComponents` with the restore as the source writes it. */
  function CleanMarkdownAsWritten(text: string, parts: seq<Part>): string
    requires Print(parts) == WithPlaceholders(text, 0)
  {
    Trim(RestoreAsWritten(CollapseNewlines(StripTags(RenderParts(parts), true)), Blocks(text), 0))
  }

  /** The source's `stripMDXComponents` and the verbatim model agree when no code block holds `$`. */
  lemma CleanMarkdownAgrees(text: string, parts: seq<Part>)
    requires Print(parts) == WithPlaceholders(text, 0)
    requires forall j :: 0 <= j < |Blocks(text)| ==> '$' !in Blocks(text)[j]
    ensures CleanMarkdownAsWritten(text, parts) == CleanMarkdown(text, parts)
  {
    RestoreAsWrittenVerbatim(CollapseNewlines(StripTags(RenderParts(parts), true)), Blocks(text), 0);
  }

  /** `stripMDXComponents`: collect the blocks, clean the text around them, put them back. */
  method StripMdxComponents(text: string, parts: seq<Part>) returns (clean: string)
    requires Print(parts) == WithPlaceholders(text, 0)
    ensures clean == CleanMarkdown(text, parts)
  {
    var codeBlocks := ExtractCodeBlocks(text);
    var cleaned := CollapseNewlines(StripTags(RenderParts(parts), true));
    cleaned := RestoreCodeBlocks(cleaned, codeBlocks);
    clean := Trim(cleaned);
  }

  /**
   * Code blocks come back verbatim: a text whose prose (outside its code blocks) holds no
   * tag and no run of three newlines is only trimmed, whatever its code blocks hold,
   * tags and blank lines included.
   */
  lemma CodeBlocksSurvive(text: string)
    requires !Contains(text, Marker)
    requires '<' !in WithPlaceholders(text, 0)
    requires forall i :: !TripleNewlineAt(WithPlaceholders(text, 0), i)
    ensures Print([Plain(WithPlaceholders(text, 0))]) == WithPlaceholders(text, 0)
    ensures CleanMarkdown(text, [Plain(WithPlaceholders(text, 0))]) == Trim(text)
  {
    var ph := WithPlaceholders(text, 0);
    PlainPart(ph);
    assert StripTags(ph, true) == ph by {
      NoOpenerTagFree(ph, true);
      StripTagFree(ph, true);
    }
    assert CollapseNewlines(ph) == ph by {
      assert !TripleNewlineAt(ph, 0);
      CollapseFromIdentity(ph, 0);
    }
    RestoreAll(text);
  }

  /** A single plain part is written and rendered as its text. */
  lemma PlainPart(t: string)
    ensures Print([Plain(t)]) == t && RenderParts([Plain(t)]) == t
  {
    assert [Plain(t)][1..] == [];
  }

  /** The whole text comes back from its placeholders and blocks. */
  lemma RestoreAll(text: string)
    requires !Contains(text, Marker)
    ensures RestoreFrom(WithPlaceholders(text, 0), Blocks(text), 0) == text
  {
    assert "" + text == text;
    RestoreRoundTrip("", text, 0);
    assert "" + WithPlaceholders(text, 0) == WithPlaceholders(text, 0) && "" + text == text;
  }

  /** The source's restore gives the whole text back when no code block holds `$`. */
  lemma RestoreAllAsWritten(text: string)
    requires !Contains(text, Marker)
    requires forall j :: 0 <= j < |Blocks(text)| ==> '$' !in Blocks(text)[j]
    ensures RestoreAsWritten(WithPlaceholders(text, 0), Blocks(text), 0) == text
  {
    RestoreAsWrittenVerbatim(WithPlaceholders(text, 0), Blocks(text), 0);
    RestoreAll(text);
  }

  // ---------------------------------------------------------------------------
  // The page text
  // ---------------------------------------------------------------------------

  /** The labels of the known first slugs. */
  const CategoryLabels: map<string, string> := map[
    "getting-started" := "Getting Started",
    "rest-api" := "REST API",
    "webhooks" := "Webhooks",
    "connectors" := "Connectors",
    "resources" := "Resources"]

  /** `page.slugs?.[0] ?? ""` */
  function FirstSlug(slugs: seq<string>): string {
    if |slugs| > 0 then slugs[0] else ""
  }

  /**
   * The category of a page: "API References" for an API reference, otherwise the label of
   * its first slug, or the first slug itself.
   */
  function Category(url: string, slugs: seq<string>): (r: string)
    ensures StartsWith(url, ApiRefPrefix) ==> r == "API References"
    ensures !StartsWith(url, ApiRefPrefix) && FirstSlug(slugs) in CategoryLabels ==> r == CategoryLabels[FirstSlug(slugs)]
    ensures !StartsWith(url, ApiRefPrefix) && FirstSlug(slugs) !in CategoryLabels ==> r == FirstSlug(slugs)
  {
    var first := FirstSlug(slugs);
    if StartsWith(url, ApiRefPrefix) then "API References"
    else if first in CategoryLabels then CategoryLabels[first]
    else first
  }

  /**
   * The "Documentation" default is never reached: a documentation page without slugs gets
   * the empty category, and "Documentation" comes only from a first slug spelled so.
   */
  lemma CategoryEmptyIff(url: string, slugs: seq<string>)
    ensures Category(url, slugs) == "" <==> !StartsWith(url, ApiRefPrefix) && FirstSlug(slugs) == ""
    ensures Category(url, slugs) == "Documentation" ==> FirstSlug(slugs) == "Documentation"
  {
  }

  /** The `options` argument of `getLLMText`. */
  datatype LlmOptions = LlmOptions(title: Option<string>, description: Option<string>)

  /** The title: the one given, else the page's, else "Untitled". */
  function PageTitle(page: Source.Page, options: LlmOptions): (r: string)
    ensures options.title.Some? ==> r == options.title.value
    ensures options.title.None? && page.title.Some? ==> r == page.title.value
    ensures options.title.None? && page.title.None? ==> r == "Untitled"
  {
    options.title.GetOr(page.title.GetOr("Untitled"))
  }

  /** The description: the one given, else the page's, else "". */
  function PageDescription(page: Source.Page, options: LlmOptions): (r: string)
    ensures options.description.Some? ==> r == options.description.value
    ensures options.description.None? && page.description.Some? ==> r == page.description.value
    ensures options.description.None? && page.description.None? ==> r == ""
  {
    options.description.GetOr(page.description.GetOr(""))
  }

  /** The lines that come before the cleaned markdown. */
  function HeaderLines(page: Source.Page, options: LlmOptions, repo: Option<string>, branch: Option<string>): seq<string> {
    [ "# " + Category(page.url, page.slugs) + ": " + PageTitle(page, options),
      "URL: " + page.url,
      "Source: " + SourceUrl(page.url, page.path, repo, branch),
      "",
      PageDescription(page, options),
      "" ]
  }

  /**
   * `getLLMText`: the header, a blank line, the description, a blank line and the cleaned
   * markdown of the page's text (`processed`, cut into `parts`).
   */
  function GetLlmText(page: Source.Page, processed: string, parts: seq<Part>, options: LlmOptions,
                      repo: Option<string>, branch: Option<string>): string
    requires Print(parts) == WithPlaceholders(processed, 0)
  {
    Join(HeaderLines(page, options, repo, branch) + [CleanMarkdown(processed, parts)], "\n")
  }

  /**
   * When the header fields are single lines, the text's lines are the category and title
   * line, the URL line, the source line, a blank line, the description, a blank line,
   * and then the lines of the cleaned markdown.
   */
  lemma GetLlmTextLines(page: Source.Page, processed: string, parts: seq<Part>, options: LlmOptions,
                        repo: Option<string>, branch: Option<string>)
    requires Print(parts) == WithPlaceholders(processed, 0)
    requires forall i :: 0 <= i < 6 ==> '\n' !in HeaderLines(page, options, repo, branch)[i]
    ensures Split(GetLlmText(page, processed, parts, options, repo, branch), '\n')
      == HeaderLines(page, options, repo, branch) + Split(CleanMarkdown(processed, parts), '\n')
  {
    var head := HeaderLines(page, options, repo, branch);
    var lines := head + [CleanMarkdown(processed, parts)];
    assert lines[..6] == head;
    SplitJoinFront(lines, '\n');
  }
}
