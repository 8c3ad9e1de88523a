/**
 * The JavaScript string operations the site's scripts and components are built from,
 * on strings as sequences of Unicode scalar values.
 */
module Text {
  import opened Wrappers

  // ---------------------------------------------------------------------------
  // Prefixes, suffixes and search
  // ---------------------------------------------------------------------------

  /** `s.startsWith(p)` */
  predicate StartsWith(s: string, p: string) {
    |p| <= |s| && s[..|p|] == p
  }

  /** `s.endsWith(p)` */
  predicate EndsWith(s: string, p: string) {
    |p| <= |s| && s[|s| - |p|..] == p
  }

  /** `p` occurs in `s` starting at index `i`. */
  predicate OccursAt(s: string, p: string, i: int) {
    0 <= i && i + |p| <= |s| && s[i..i + |p|] == p
  }

  /** `s.indexOf(p)`: the first index at which `p` occurs in `s`, if any. */
  function IndexOf(s: string, p: string): (r: Option<nat>)
    ensures r.Some? ==> OccursAt(s, p, r.value)
    ensures r.Some? ==> forall j :: 0 <= j < r.value ==> !OccursAt(s, p, j)
    ensures r.None? ==> forall j :: 0 <= j <= |s| ==> !OccursAt(s, p, j)
    decreases |s|
  {
    if StartsWith(s, p) then Some(0)
    else if |s| == 0 then None
    else
      var rest := IndexOf(s[1..], p);
      assert forall j :: 1 <= j <= |s| ==> (OccursAt(s, p, j) <==> OccursAt(s[1..], p, j - 1)) by {
        forall j | 1 <= j <= |s| ensures OccursAt(s, p, j) <==> OccursAt(s[1..], p, j - 1) {
          OccursShift(s, p, j);
        }
      }
      match rest
      case None => None
      case Some(k) => Some(k + 1)
  }

  /** An occurrence at `j >= 1` is an occurrence at `j - 1` in the text without its first character. */
  lemma OccursShift(s: string, p: string, j: int)
    requires 1 <= j <= |s|
    ensures OccursAt(s, p, j) <==> OccursAt(s[1..], p, j - 1)
  {
    if j + |p| <= |s| {
      var a := s[j..j + |p|];
      var b := s[1..][j - 1..j - 1 + |p|];
      assert |a| == |b|;
      assert forall k :: 0 <= k < |a| ==> a[k] == b[k];
      assert a == b;
    }
  }

  /** An occurrence in a suffix is an occurrence in the whole text, shifted. */
  lemma OccursDrop(s: string, p: string, a: nat, k: nat)
    requires a <= |s|
    ensures OccursAt(s[a..], p, k) <==> OccursAt(s, p, a + k)
  {
    if k + |p| <= |s| - a {
      assert s[a..][k..k + |p|] == s[a + k..a + k + |p|];
    }
  }

  /** An occurrence with none before it is the one `indexOf` finds. */
  lemma IndexOfFirst(s: string, p: string, k: nat)
    requires OccursAt(s, p, k) && forall j :: 0 <= j < k ==> !OccursAt(s, p, j)
    ensures IndexOf(s, p) == Some(k)
  {
  }

  /** A text that does not contain `p` has no prefix that contains it. */
  lemma NotContainedPrefix(s: string, p: string, n: nat)
    requires !Contains(s, p) && n <= |s|
    ensures !Contains(s[..n], p)
  {
    ContainsIff(s, p);
    ContainsIff(s[..n], p);
    forall i | OccursAt(s[..n], p, i) ensures OccursAt(s, p, i) {
      assert s[..n][i..i + |p|] == s[i..i + |p|];
    }
  }

  /** `s.includes(p)` */
  predicate Contains(s: string, p: string) {
    IndexOf(s, p).Some?
  }

  lemma ContainsIff(s: string, p: string)
    ensures Contains(s, p) <==> exists i :: OccursAt(s, p, i)
  {
    if exists i :: OccursAt(s, p, i) {
      var i :| OccursAt(s, p, i);
      assert i <= |s|;
    }
  }

  /** A string that lacks one of the characters of `p` does not contain `p`. */
  lemma AbsentCharNotContained(s: string, p: string, k: nat)
    requires k < |p| && p[k] !in s
    ensures !Contains(s, p)
  {
    forall i ensures !OccursAt(s, p, i) {
      if 0 <= i && i + |p| <= |s| {
        assert s[i..i + |p|][k] == s[i + k];
      }
    }
    ContainsIff(s, p);
  }

  // ---------------------------------------------------------------------------
  // Replacement
  // ---------------------------------------------------------------------------

  /**
   * The replacement text JavaScript's `String.prototype.replace` inserts for a string
   * pattern: `$$` stands for `$`, `$&` for the matched text, `` $` `` for the text
   * before the match and `$'` for the text after it; any other `$` is kept.
   */
  function ExpandReplacement(rep: string, matched: string, before: string, after: string): string
    decreases |rep|
  {
    if |rep| == 0 then ""
    else if rep[0] == '$' && |rep| >= 2 && rep[1] == '$' then "$" + ExpandReplacement(rep[2..], matched, before, after)
    else if rep[0] == '$' && |rep| >= 2 && rep[1] == '&' then matched + ExpandReplacement(rep[2..], matched, before, after)
    else if rep[0] == '$' && |rep| >= 2 && rep[1] == '`' then before + ExpandReplacement(rep[2..], matched, before, after)
    else if rep[0] == '$' && |rep| >= 2 && rep[1] == '\'' then after + ExpandReplacement(rep[2..], matched, before, after)
    else [rep[0]] + ExpandReplacement(rep[1..], matched, before, after)
  }

  /** A replacement without `$` is inserted as it is. */
  lemma {:induction false} ExpandWithoutDollar(rep: string, matched: string, before: string, after: string)
    requires '$' !in rep
    ensures ExpandReplacement(rep, matched, before, after) == rep
    decreases |rep|
  {
    if |rep| > 0 {
      assert rep[0] != '$';
      assert '$' !in rep[1..] by {
        forall k | 0 <= k < |rep[1..]| ensures rep[1..][k] != '$' { assert rep[1..][k] == rep[k + 1]; }
      }
      ExpandWithoutDollar(rep[1..], matched, before, after);
      assert rep == [rep[0]] + rep[1..];
    }
  }

  /** `s.replace(p, rep)` with a string pattern: only the first occurrence is replaced. */
  function Replace(s: string, p: string, rep: string): (r: string)
    ensures IndexOf(s, p).None? ==> r == s
  {
    match IndexOf(s, p)
    case None => s
    case Some(i) => s[..i] + ExpandReplacement(rep, p, s[..i], s[i + |p|..]) + s[i + |p|..]
  }

  /** Replacing the first occurrence of `p` by a `$`-free text splices that text in verbatim. */
  lemma ReplaceLiteral(s: string, p: string, rep: string)
    requires '$' !in rep
    ensures IndexOf(s, p).Some? ==>
      var i := IndexOf(s, p).value;
      Replace(s, p, rep) == s[..i] + rep + s[i + |p|..]
  {
    if IndexOf(s, p).Some? {
      var i := IndexOf(s, p).value;
      ExpandWithoutDollar(rep, p, s[..i], s[i + |p|..]);
    }
  }

  // ---------------------------------------------------------------------------
  // Splitting and joining
  // ---------------------------------------------------------------------------

  /** `parts.join(sep)` */
  function Join(parts: seq<string>, sep: string): string
    decreases |parts|
  {
    if |parts| == 0 then ""
    else if |parts| == 1 then parts[0]
    else parts[0] + sep + Join(parts[1..], sep)
  }

  /** Joining a list with a head puts the separator after the head. */
  lemma JoinCons(x: string, rest: seq<string>, sep: string)
    requires |rest| >= 1
    ensures Join([x] + rest, sep) == x + sep + Join(rest, sep)
  {
    assert ([x] + rest)[1..] == rest;
  }

  /** `s.split(sep)` for a one-character separator. */
  function Split(s: string, sep: char): (parts: seq<string>)
    ensures |parts| >= 1
    ensures forall i :: 0 <= i < |parts| ==> sep !in parts[i]
    ensures Join(parts, [sep]) == s
    decreases |s|
  {
    if s == [] then [""]
    else if s[0] == sep then
      var rest := Split(s[1..], sep);
      assert Join([""] + rest, [sep]) == [sep] + Join(rest, [sep]) by {
        assert ([""] + rest)[1..] == rest;
      }
      assert s == [sep] + s[1..];
      [""] + rest
    else
      var rest := Split(s[1..], sep);
      var r := [[s[0]] + rest[0]] + rest[1..];
      assert r[1..] == rest[1..];
      assert Join(r, [sep]) == [s[0]] + Join(rest, [sep]) by {
        if |rest| > 1 {
          assert Join(rest, [sep]) == rest[0] + [sep] + Join(rest[1..], [sep]);
        }
      }
      assert s == [s[0]] + s[1..];
      r
  }

  /** Splitting a joined list at a separator no part contains gives the list back. */
  lemma {:induction false} SplitJoin(parts: seq<string>, sep: char)
    requires |parts| >= 1
    requires forall i :: 0 <= i < |parts| ==> sep !in parts[i]
    ensures Split(Join(parts, [sep]), sep) == parts
    decreases |parts|, |parts[0]|
  {
    var s := Join(parts, [sep]);
    if |parts[0]| > 0 {
      var c := parts[0][0];
      var shorter := [parts[0][1..]] + parts[1..];
      assert shorter[1..] == parts[1..];
      assert s == [c] + Join(shorter, [sep]) by {
        if |parts| > 1 { assert Join(shorter, [sep]) == parts[0][1..] + [sep] + Join(parts[1..], [sep]); }
      }
      assert sep !in parts[0][1..] by {
        forall k | 0 <= k < |parts[0][1..]| ensures parts[0][1..][k] != sep { assert parts[0][1..][k] == parts[0][k + 1]; }
      }
      SplitJoin(shorter, sep);
      assert s[0] == c && s[1..] == Join(shorter, [sep]);
      assert c != sep by { assert parts[0][0] in parts[0]; }
      assert [c] + parts[0][1..] == parts[0];
      assert [[c] + shorter[0]] + shorter[1..] == parts;
    } else if |parts| > 1 {
      assert s == [sep] + Join(parts[1..], [sep]);
      SplitJoin(parts[1..], sep);
      assert s[1..] == Join(parts[1..], [sep]);
      assert [""] + parts[1..] == parts;
    }
  }

  /** Joining two non-empty lists is joining each and putting the separator between them. */
  lemma {:induction false} JoinAppend(a: seq<string>, b: seq<string>, sep: string)
    requires |a| >= 1 && |b| >= 1
    ensures Join(a + b, sep) == Join(a, sep) + sep + Join(b, sep)
    decreases |a|
  {
    if |a| == 1 {
      JoinCons(a[0], b, sep);
      assert a + b == [a[0]] + b;
    } else {
      JoinAppend(a[1..], b, sep);
      assert a + b == [a[0]] + (a[1..] + b);
      JoinCons(a[0], a[1..] + b, sep);
      JoinCons(a[0], a[1..], sep);
      assert a == [a[0]] + a[1..];
    }
  }

  /** The lines of a list of blocks, block after block. */
  function Concat(blocks: seq<seq<string>>): (r: seq<string>)
    decreases |blocks|
  {
    if |blocks| == 0 then [] else Concat(blocks[..|blocks| - 1]) + blocks[|blocks| - 1]
  }

  /** Joining each block and then joining the results is joining all the blocks' lines. */
  lemma {:induction false} JoinConcat(blocks: seq<seq<string>>, sep: string)
    requires |blocks| > 0 && forall i :: 0 <= i < |blocks| ==> |blocks[i]| > 0
    ensures |Concat(blocks)| > 0
    ensures Join(seq(|blocks|, i requires 0 <= i < |blocks| => Join(blocks[i], sep)), sep) == Join(Concat(blocks), sep)
    decreases |blocks|
  {
    var n := |blocks| - 1;
    var joined := seq(|blocks|, i requires 0 <= i < |blocks| => Join(blocks[i], sep));
    if n == 0 {
      assert joined == [Join(blocks[0], sep)];
      assert blocks[..0] == [];
      assert Concat(blocks) == blocks[0];
    } else {
      var front := blocks[..n];
      JoinConcat(front, sep);
      var joinedFront := seq(n, i requires 0 <= i < n => Join(front[i], sep));
      assert joined == joinedFront + [Join(blocks[n], sep)];
      JoinSnoc(joinedFront, Join(blocks[n], sep), sep);
      JoinAppend(Concat(front), blocks[n], sep);
    }
  }

  /** A character that no line of any block holds is in no line of their concatenation. */
  lemma {:induction false} ConcatAvoids(blocks: seq<seq<string>>, c: char)
    requires forall i, j :: 0 <= i < |blocks| && 0 <= j < |blocks[i]| ==> c !in blocks[i][j]
    ensures forall k :: 0 <= k < |Concat(blocks)| ==> c !in Concat(blocks)[k]
    decreases |blocks|
  {
    if |blocks| > 0 {
      var n := |blocks| - 1;
      var front := blocks[..n];
      forall i, j | 0 <= i < |front| && 0 <= j < |front[i]| ensures c !in front[i][j] {
        assert front[i] == blocks[i];
      }
      ConcatAvoids(front, c);
      var r := Concat(blocks);
      forall k | 0 <= k < |r| ensures c !in r[k] {
        if k >= |Concat(front)| { assert r[k] == blocks[n][k - |Concat(front)|]; }
        else { assert r[k] == Concat(front)[k]; }
      }
    }
  }

  /** Joining a list with one more element at the end adds the separator and that element. */
  lemma {:induction false} JoinSnoc(parts: seq<string>, x: string, sep: string)
    requires |parts| >= 1
    ensures Join(parts + [x], sep) == Join(parts, sep) + sep + x
    decreases |parts|
  {
    if |parts| == 1 {
      assert (parts + [x])[1..] == [x];
    } else {
      assert (parts + [x])[1..] == parts[1..] + [x];
      JoinSnoc(parts[1..], x, sep);
    }
  }

  /** A string without the separator is one part. */
  lemma SplitNoSep(s: string, sep: char)
    requires sep !in s
    ensures Split(s, sep) == [s]
  {
    SplitJoin([s], sep);
  }

  /** A separator-free string followed by the separator is one part in front of the rest. */
  lemma SplitCons(x: string, sep: char, s: string)
    requires sep !in x
    ensures Split(x + [sep] + s, sep) == [x] + Split(s, sep)
  {
    var parts := Split(s, sep);
    JoinCons(x, parts, [sep]);
    assert forall i :: 0 <= i < |[x] + parts| ==> sep !in ([x] + parts)[i] by {
      forall i | 0 <= i < |[x] + parts| ensures sep !in ([x] + parts)[i] {
        if i > 0 { assert ([x] + parts)[i] == parts[i - 1]; }
      }
    }
    SplitJoin([x] + parts, sep);
  }

  /**
   * Splitting joined lines, all but the last free of the separator, gives those lines and
   * then the last line's own parts.
   */
  lemma {:induction false} SplitJoinFront(parts: seq<string>, sep: char)
    requires |parts| >= 1
    requires forall i :: 0 <= i < |parts| - 1 ==> sep !in parts[i]
    ensures Split(Join(parts, [sep]), sep) == parts[..|parts| - 1] + Split(parts[|parts| - 1], sep)
    decreases |parts|
  {
    if |parts| > 1 {
      var tail := parts[1..];
      var front := tail[..|tail| - 1];
      var last := Split(parts[|parts| - 1], sep);
      assert Split(Join(parts, [sep]), sep) == [parts[0]] + (front + last) by {
        forall i | 0 <= i < |tail| - 1 ensures sep !in tail[i] { assert tail[i] == parts[i + 1]; }
        var rest := Join(tail, [sep]);
        assert Join(parts, [sep]) == parts[0] + [sep] + rest;
        SplitJoinFront(tail, sep);
        assert tail[|tail| - 1] == parts[|parts| - 1];
        assert sep !in parts[0];
        SplitCons(parts[0], sep, rest);
      }
      HeadAndFront(parts, front, last);
    } else {
      assert parts[..0] == [];
    }
  }

  /** The head, then the middle parts, then `last`, is everything but the final part, then `last`. */
  lemma HeadAndFront<T>(parts: seq<T>, front: seq<T>, last: seq<T>)
    requires |parts| > 1 && front == parts[1..][..|parts| - 2]
    ensures [parts[0]] + (front + last) == parts[..|parts| - 1] + last
  {
    assert parts[..|parts| - 1] == [parts[0]] + front;
  }

  /** Appending the separator and a separator-free string adds that string as the last part. */
  lemma SplitSnoc(s: string, sep: char, x: string)
    requires sep !in x
    ensures Split(s + [sep] + x, sep) == Split(s, sep) + [x]
  {
    var parts := Split(s, sep);
    JoinSnoc(parts, x, [sep]);
    SplitJoin(parts + [x], sep);
  }

  /** `parts.filter(Boolean)`: the non-empty parts, in order. */
  function NonEmpty(parts: seq<string>): (r: seq<string>)
    ensures forall i :: 0 <= i < |r| ==> r[i] != "" && r[i] in parts
    ensures forall x :: x in parts && x != "" ==> x in r
    ensures |r| <= |parts|
  {
    if |parts| == 0 then []
    else if parts[0] == "" then NonEmpty(parts[1..])
    else [parts[0]] + NonEmpty(parts[1..])
  }

  /** `s.split(sep).filter(Boolean)`: the non-empty `sep`-separated segments of `s`. */
  function Segments(s: string, sep: char): (r: seq<string>)
    ensures forall i :: 0 <= i < |r| ==> r[i] != "" && sep !in r[i]
  {
    NonEmpty(Split(s, sep))
  }

  /** Dropping empty parts leaves parts that are all non-empty as they are. */
  lemma {:induction false} NonEmptyIdentity(parts: seq<string>)
    requires forall i :: 0 <= i < |parts| ==> parts[i] != ""
    ensures NonEmpty(parts) == parts
    decreases |parts|
  {
    if |parts| > 0 {
      NonEmptyIdentity(parts[1..]);
      assert parts == [parts[0]] + parts[1..];
    }
  }

  /** A single part is kept exactly when it is not empty. */
  lemma NonEmptyOne(x: string)
    ensures NonEmpty([x]) == if x != "" then [x] else []
  {
    assert [x][1..] == [];
  }

  /**
   * Filtering distributes over concatenation: with `NonEmptyOne`, the kept parts are the
   * non-empty ones, in their order and as often as they occur.
   */
  lemma {:induction false} NonEmptyAppend(a: seq<string>, b: seq<string>)
    ensures NonEmpty(a + b) == NonEmpty(a) + NonEmpty(b)
    decreases |a|
  {
    if |a| > 0 {
      assert (a + b)[1..] == a[1..] + b;
      NonEmptyAppend(a[1..], b);
    } else {
      assert a + b == b;
    }
  }

  /** Filtering a list with one more part at the end keeps that part when it is not empty. */
  lemma {:induction false} NonEmptySnoc(parts: seq<string>, x: string)
    ensures NonEmpty(parts + [x]) == NonEmpty(parts) + (if x != "" then [x] else [])
    decreases |parts|
  {
    if |parts| == 0 {
      assert ([] + [x])[1..] == [];
    } else {
      assert (parts + [x])[1..] == parts[1..] + [x];
      NonEmptySnoc(parts[1..], x);
    }
  }

  /** The segments of an absolute path built from non-empty, slash-free segments are those segments. */
  lemma SegmentsOfPath(segs: seq<string>)
    requires |segs| >= 1
    requires forall i :: 0 <= i < |segs| ==> segs[i] != "" && '/' !in segs[i]
    ensures Segments("/" + Join(segs, "/"), '/') == segs
  {
    var parts := [""] + segs;
    JoinCons("", segs, "/");
    assert "" + "/" + Join(segs, "/") == "/" + Join(segs, "/");
    assert forall i :: 0 <= i < |parts| ==> '/' !in parts[i] by {
      forall i | 0 <= i < |parts| ensures '/' !in parts[i] {
        if i > 0 { assert parts[i] == segs[i - 1]; }
      }
    }
    SplitJoin(parts, '/');
    assert parts[1..] == segs;
    NonEmptyIdentity(segs);
  }

  /** `xs.at(-1)` */
  function Last<T>(xs: seq<T>): Option<T> {
    if |xs| == 0 then None else Some(xs[|xs| - 1])
  }

  // ---------------------------------------------------------------------------
  // Whitespace and trimming
  // ---------------------------------------------------------------------------

  /**
   * The characters JavaScript counts as white space (`\s` in a regular expression and
   * what `trim` removes): WhiteSpace and LineTerminator of ECMA-262.
   */
  predicate IsSpace(c: char) {
    c == '\t' || c == '\n' || c == '\U{000B}' || c == '\U{000C}' || c == '\r' || c == ' '
    || c == '\U{00A0}' || c == '\U{1680}' || ('\U{2000}' <= c <= '\U{200A}')
    || c == '\U{2028}' || c == '\U{2029}' || c == '\U{202F}' || c == '\U{205F}'
    || c == '\U{3000}' || c == '\U{FEFF}'
  }

  predicate AllSpace(s: string) {
    forall i :: 0 <= i < |s| ==> IsSpace(s[i])
  }

  /** `s.trimStart()` */
  function TrimStart(s: string): (r: string)
    ensures |r| <= |s| && r == s[|s| - |r|..]
    ensures AllSpace(s[..|s| - |r|])
    ensures r == [] || !IsSpace(r[0])
    decreases |s|
  {
    if |s| > 0 && IsSpace(s[0]) then
      var r := TrimStart(s[1..]);
      assert s[..|s| - |r|] == [s[0]] + s[1..][..|s| - 1 - |r|];
      r
    else s
  }

  /** `s.trimEnd()` */
  function TrimEnd(s: string): (r: string)
    ensures |r| <= |s| && r == s[..|r|]
    ensures AllSpace(s[|r|..])
    ensures r == [] || !IsSpace(r[|r| - 1])
    decreases |s|
  {
    if |s| > 0 && IsSpace(s[|s| - 1]) then
      var r := TrimEnd(s[..|s| - 1]);
      assert s[|r|..] == s[..|s| - 1][|r|..] + [s[|s| - 1]];
      r
    else s
  }

  /** `s.trim()` */
  function Trim(s: string): (r: string)
    ensures r == [] || (!IsSpace(r[0]) && !IsSpace(r[|r| - 1]))
    ensures |r| <= |s|
  {
    TrimEnd(TrimStart(s))
  }

  /** The trimmed string is a slice of `s` with only white space around it. */
  lemma TrimShape(s: string) returns (i: nat)
    ensures i + |Trim(s)| <= |s| && Trim(s) == s[i..i + |Trim(s)|]
    ensures AllSpace(s[..i]) && AllSpace(s[i + |Trim(s)|..])
  {
    var t := TrimStart(s);
    var r := TrimEnd(t);
    i := |s| - |t|;
    assert Trim(s) == r;
    assert t == s[i..] && AllSpace(s[..i]);
    assert r == t[..|r|] && AllSpace(t[|r|..]);
    SlicesOfSuffix(s, i, |r|);
    assert AllSpace(s[i + |r|..]);
  }

  /** The prefix and the rest of a suffix, as slices of the whole sequence. */
  lemma SlicesOfSuffix<T>(s: seq<T>, i: nat, n: nat)
    requires i + n <= |s|
    ensures s[i..][..n] == s[i..i + n] && s[i..][n..] == s[i + n..]
  {
  }

  /** A string that neither starts nor ends with white space is already trimmed. */
  lemma TrimTrimmed(s: string)
    requires s == [] || (!IsSpace(s[0]) && !IsSpace(s[|s| - 1]))
    ensures Trim(s) == s
  {
  }

  /** Trimming a string that starts with a non-space character keeps every non-space character's position. */
  lemma TrimKeepsFrom(s: string, p: nat)
    requires p < |s| && !IsSpace(s[0]) && !IsSpace(s[p])
    ensures p < |Trim(s)| && Trim(s) == s[..|Trim(s)|]
  {
    var r := Trim(s);
    var i := TrimShape(s);
    assert forall j :: i + |r| <= j < |s| ==> s[i + |r|..][j - i - |r|] == s[j];
  }

  /** A string ending in a non-space character does not trim to nothing. */
  lemma TrimNonEmpty(s: string)
    requires |s| > 0 && !IsSpace(s[|s| - 1])
    ensures Trim(s) != ""
  {
    TrimEmptyIff(s);
  }

  /** A proper suffix of a string that ends in a non-space character trims to a non-empty, trimmed string. */
  lemma TrimSuffix(t: string, n: nat)
    requires n < |t| && !IsSpace(t[|t| - 1])
    ensures Trim(t[n..]) != "" && Trim(Trim(t[n..])) == Trim(t[n..])
  {
    var rest := t[n..];
    assert rest[|rest| - 1] == t[|t| - 1];
    TrimNonEmpty(rest);
    TrimIdempotent(rest);
  }

  /** `s.trim().trim() == s.trim()` */
  lemma TrimIdempotent(s: string)
    ensures Trim(Trim(s)) == Trim(s)
  {
    TrimTrimmed(Trim(s));
  }

  /** `!s.trim()`: the string is empty or only white space. */
  lemma TrimEmptyIff(s: string)
    ensures Trim(s) == "" <==> AllSpace(s)
  {
    var r := Trim(s);
    var i := TrimShape(s);
    if r == "" {
      forall k | 0 <= k < |s| ensures IsSpace(s[k]) {
        if k < i { assert s[..i][k] == s[k]; } else { assert s[i..][k - i] == s[k]; }
      }
    } else {
      assert s[i] == r[0];
    }
  }

  // ---------------------------------------------------------------------------
  // Case
  // ---------------------------------------------------------------------------

  /**
   * `toLowerCase` of one character, for the characters whose lower case holds an ASCII
   * letter: A-Z, U+0130 (which becomes "i" and a combining dot) and the Kelvin sign.
   */
  function LowerChar(c: char): string {
    if 'A' <= c <= 'Z' then [(c as int + 32) as char]
    else if c == '\U{0130}' then "i\U{0307}"
    else if c == '\U{212A}' then "k"
    else [c]
  }

  /** `s.toLowerCase()` */
  function ToLower(s: string): (r: string)
    ensures forall i :: 0 <= i < |r| ==> !('A' <= r[i] <= 'Z')
    ensures |r| >= |s|
  {
    if |s| == 0 then "" else LowerChar(s[0]) + ToLower(s[1..])
  }

  /** A string with no upper-case ASCII letter and no special case is its own lower case. */
  lemma {:induction false} ToLowerIdentity(s: string)
    requires forall i :: 0 <= i < |s| ==> !('A' <= s[i] <= 'Z') && s[i] != '\U{0130}' && s[i] != '\U{212A}'
    ensures ToLower(s) == s
  {
    if |s| > 0 {
      ToLowerIdentity(s[1..]);
      assert s == [s[0]] + s[1..];
    }
  }

  /** Lowering adds no character other than a lower-case letter or the combining dot. */
  lemma {:induction false} ToLowerKeepsAbsent(s: string, c: char)
    requires c !in s && !('a' <= c <= 'z') && c != '\U{0307}'
    ensures c !in ToLower(s)
  {
    if |s| > 0 {
      assert c !in s[1..] by { assert forall k :: 0 <= k < |s[1..]| ==> s[1..][k] == s[k + 1]; }
      ToLowerKeepsAbsent(s[1..], c);
      assert c !in LowerChar(s[0]);
    }
  }

  /** `\w` of a regular expression without the `u` flag. */
  predicate IsWordChar(c: char) {
    ('a' <= c <= 'z') || ('A' <= c <= 'Z') || ('0' <= c <= '9') || c == '_'
  }

  /** `toUpperCase` of a word character. */
  function UpperChar(c: char): char {
    if 'a' <= c <= 'z' then (c as int - 32) as char else c
  }

  /** The character at `i` begins a word (`\b\w`) when the text before `s` ended in a word character iff `prevWord`. */
  predicate WordStart(s: string, i: int, prevWord: bool)
    requires 0 <= i < |s|
  {
    IsWordChar(s[i]) && (if i == 0 then !prevWord else !IsWordChar(s[i - 1]))
  }

  function CapitalizeFrom(s: string, prevWord: bool): (r: string)
    ensures |r| == |s|
    ensures forall i :: 0 <= i < |s| ==> r[i] == if WordStart(s, i, prevWord) then UpperChar(s[i]) else s[i]
    decreases |s|
  {
    if |s| == 0 then ""
    else
      var rest := CapitalizeFrom(s[1..], IsWordChar(s[0]));
      var r := [if WordStart(s, 0, prevWord) then UpperChar(s[0]) else s[0]] + rest;
      assert forall i :: 1 <= i < |s| ==> WordStart(s, i, prevWord) == WordStart(s[1..], i - 1, IsWordChar(s[0]));
      r
  }

  /** `s.replace(/\b\w/g, c => c.toUpperCase())` */
  function Capitalize(s: string): string {
    CapitalizeFrom(s, false)
  }

  /** `s.replace(/-/g, " ")` */
  function DashesToSpaces(s: string): (r: string)
    ensures |r| == |s|
    ensures forall i :: 0 <= i < |s| ==> r[i] == if s[i] == '-' then ' ' else s[i]
  {
    seq(|s|, i requires 0 <= i < |s| => if s[i] == '-' then ' ' else s[i])
  }

  /** A URL segment as a title: dashes become spaces and every word starts with a capital. */
  function Titleize(s: string): (r: string)
    ensures |r| == |s|
    ensures '-' !in r
  {
    var d := DashesToSpaces(s);
    var r := Capitalize(d);
    assert forall i :: 0 <= i < |r| ==> r[i] != '-';
    r
  }

  // ---------------------------------------------------------------------------
  // Order
  // ---------------------------------------------------------------------------

  /** Lexicographic order on code points: `a` sorts strictly before `b`. */
  predicate LexLess(a: string, b: string)
    decreases |a|
  {
    |b| > 0 && (|a| == 0 || a[0] < b[0] || (a[0] == b[0] && LexLess(a[1..], b[1..])))
  }

  lemma {:induction false} LexLessIrreflexive(a: string)
    ensures !LexLess(a, a)
    decreases |a|
  {
    if |a| > 0 { LexLessIrreflexive(a[1..]); }
  }

  lemma {:induction false} LexLessTransitive(a: string, b: string, c: string)
    requires LexLess(a, b) && LexLess(b, c)
    ensures LexLess(a, c)
    decreases |a|
  {
    if |a| > 0 && a[0] == b[0] == c[0] {
      LexLessTransitive(a[1..], b[1..], c[1..]);
    }
  }

  lemma {:induction false} LexLessTotal(a: string, b: string)
    requires a != b
    ensures LexLess(a, b) || LexLess(b, a)
    decreases |a|
  {
    if |a| > 0 && |b| > 0 && a[0] == b[0] {
      assert a == [a[0]] + a[1..] && b == [b[0]] + b[1..];
      LexLessTotal(a[1..], b[1..]);
    }
  }

  lemma {:induction false} LexLessAsymmetric(a: string, b: string)
    requires LexLess(a, b)
    ensures !LexLess(b, a)
    decreases |a|
  {
    if |a| > 0 && a[0] == b[0] {
      LexLessAsymmetric(a[1..], b[1..]);
    }
  }

  // ---------------------------------------------------------------------------
  // Newline runs
  // ---------------------------------------------------------------------------

  /**
   * `s.replace(/\n{3,}/g, "\n\n")` on the rest of a text, `run` being the number of
   * newlines that immediately precede `s` in the current run.
   */
  function CollapseFrom(s: string, run: nat): string
    decreases |s|
  {
    if |s| == 0 then ""
    else if s[0] == '\n' then (if run < 2 then "\n" else "") + CollapseFrom(s[1..], run + 1)
    else [s[0]] + CollapseFrom(s[1..], 0)
  }

  /** `s.replace(/\n{3,}/g, "\n\n")`: every run of three or more newlines becomes two. */
  function CollapseNewlines(s: string): string {
    CollapseFrom(s, 0)
  }

  /** Three newlines in a row starting at `i`. */
  predicate TripleNewlineAt(s: string, i: int) {
    0 <= i && i + 2 < |s| && s[i] == '\n' && s[i + 1] == '\n' && s[i + 2] == '\n'
  }

  /** The number of newlines `s` starts with, capped at 3. */
  function LeadingNewlines(s: string): nat {
    if |s| >= 1 && s[0] == '\n' then
      if |s| >= 2 && s[1] == '\n' then
        if |s| >= 3 && s[2] == '\n' then 3 else 2
      else 1
    else 0
  }

  lemma {:induction false} CollapseFromShape(s: string, run: nat)
    ensures forall i :: !TripleNewlineAt(CollapseFrom(s, run), i)
    ensures (if run >= 2 then 0 else 2 - run) >= LeadingNewlines(CollapseFrom(s, run))
    decreases |s|
  {
    if |s| > 0 {
      var tail := CollapseFrom(s[1..], if s[0] == '\n' then run + 1 else 0);
      CollapseFromShape(s[1..], if s[0] == '\n' then run + 1 else 0);
      var r := CollapseFrom(s, run);
      var head := if s[0] == '\n' then (if run < 2 then "\n" else "") else [s[0]];
      assert r == head + tail;
      forall i ensures !TripleNewlineAt(r, i) {
        if i >= |head| {
          assert TripleNewlineAt(r, i) == TripleNewlineAt(tail, i - |head|);
        } else if head == "\n" {
          assert LeadingNewlines(tail) <= 1;
          assert !(|tail| >= 2 && tail[0] == '\n' && tail[1] == '\n');
        }
      }
    }
  }

  /** After collapsing, no run of three newlines is left. */
  lemma CollapseLeavesNoTriple(s: string)
    ensures forall i :: !TripleNewlineAt(CollapseNewlines(s), i)
  {
    CollapseFromShape(s, 0);
  }

  /** Collapsing removes newlines only: the other characters survive in order. */
  function WithoutNewlines(s: string): string {
    if |s| == 0 then "" else (if s[0] == '\n' then "" else [s[0]]) + WithoutNewlines(s[1..])
  }

  lemma {:induction false} WithoutNewlinesAppend(a: string, b: string)
    ensures WithoutNewlines(a + b) == WithoutNewlines(a) + WithoutNewlines(b)
    decreases |a|
  {
    if |a| > 0 {
      assert (a + b)[1..] == a[1..] + b;
      WithoutNewlinesAppend(a[1..], b);
    } else {
      assert a + b == b;
    }
  }

  lemma {:induction false} CollapseFromKeepsText(s: string, run: nat)
    ensures WithoutNewlines(CollapseFrom(s, run)) == WithoutNewlines(s)
    decreases |s|
  {
    if |s| > 0 {
      var next := if s[0] == '\n' then run + 1 else 0;
      CollapseFromKeepsText(s[1..], next);
      var head := if s[0] == '\n' then (if run < 2 then "\n" else "") else [s[0]];
      WithoutNewlinesAppend(head, CollapseFrom(s[1..], next));
    }
  }

  lemma CollapseKeepsText(s: string)
    ensures WithoutNewlines(CollapseNewlines(s)) == WithoutNewlines(s)
  {
    CollapseFromKeepsText(s, 0);
  }

  /** A text with no run of three newlines is left as it is. */
  lemma {:induction false} CollapseFromIdentity(s: string, run: nat)
    requires run <= 2
    requires forall i :: !TripleNewlineAt(s, i)
    requires run + LeadingNewlines(s) <= 2 || LeadingNewlines(s) == 0
    ensures CollapseFrom(s, run) == s
    decreases |s|
  {
    if |s| > 0 {
      var next := if s[0] == '\n' then run + 1 else 0;
      forall i ensures !TripleNewlineAt(s[1..], i) {
        if TripleNewlineAt(s[1..], i) { assert TripleNewlineAt(s, i + 1); }
      }
      assert !TripleNewlineAt(s, 0) && !TripleNewlineAt(s, 1);
      if s[0] == '\n' {
        assert LeadingNewlines(s[1..]) + 1 == LeadingNewlines(s);
      } else {
        assert LeadingNewlines(s[1..]) <= 2;
      }
      CollapseFromIdentity(s[1..], next);
      assert s == [s[0]] + s[1..];
    }
  }

  lemma CollapseIdempotent(s: string)
    ensures CollapseNewlines(CollapseNewlines(s)) == CollapseNewlines(s)
  {
    var c := CollapseNewlines(s);
    CollapseLeavesNoTriple(s);
    assert !TripleNewlineAt(c, 0);
    CollapseFromIdentity(c, 0);
  }
}
