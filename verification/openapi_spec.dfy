/**
 * The clean-up applied to the OpenAPI documents before they are served: every
 * `description` or `summary` string loses its single line breaks, while paragraph
 * breaks (two or more newlines in a row) stay.
 */
module OpenApiSpec {

  // ---------------------------------------------------------------------------
  // Single newlines
  // ---------------------------------------------------------------------------

  /**
   * The newline at `i` has no newline directly before or after it, where `afterNewline`
   * says whether the text before `s` ended in a newline.
   */
  predicate LoneNewline(s: string, i: int, afterNewline: bool)
    requires 0 <= i < |s|
  {
    s[i] == '\n' && (if i == 0 then !afterNewline else s[i - 1] != '\n') && (i + 1 == |s| || s[i + 1] != '\n')
  }

  /** `(?<!\n)\n(?!\n)` matches at `i`. */
  predicate SingleNewlineAt(s: string, i: int)
    requires 0 <= i < |s|
  {
    LoneNewline(s, i, false)
  }

  /**
   * One left-to-right scan of the regular expression's global replacement; `afterNewline`
   * says the character before `s` was a newline.
   */
  function ReplaceSingles(s: string, afterNewline: bool): (r: string)
    ensures |r| == |s|
    ensures forall i :: 0 <= i < |s| ==> r[i] == if LoneNewline(s, i, afterNewline) then ' ' else s[i]
  {
    if |s| == 0 then ""
    else
      var single := s[0] == '\n' && !afterNewline && (|s| == 1 || s[1] != '\n');
      var rest := ReplaceSingles(s[1..], s[0] == '\n');
      var r := [if single then ' ' else s[0]] + rest;
      forall i | 1 <= i < |s| ensures r[i] == if LoneNewline(s, i, afterNewline) then ' ' else s[i] {
        assert r[i] == rest[i - 1];
        assert LoneNewline(s[1..], i - 1, s[0] == '\n') == LoneNewline(s, i, afterNewline);
      }
      r
  }

  /** `removeSingleNewlines`: every single newline becomes a space. */
  function RemoveSingleNewlines(s: string): (r: string)
    ensures |r| == |s|
    ensures forall i :: 0 <= i < |s| ==> r[i] == if SingleNewlineAt(s, i) then ' ' else s[i]
  {
    ReplaceSingles(s, false)
  }

  /** After the clean-up no single newline is left: every newline is part of a paragraph break. */
  lemma NoSingleNewlineLeft(s: string)
    ensures var r := RemoveSingleNewlines(s);
      forall i :: 0 <= i < |r| ==> !SingleNewlineAt(r, i)
  {
    var r := RemoveSingleNewlines(s);
    forall i | 0 <= i < |r| ensures !SingleNewlineAt(r, i) {
      if r[i] == '\n' {
        assert s[i] == '\n' && !SingleNewlineAt(s, i);
        if i > 0 && s[i - 1] == '\n' {
          assert r[i - 1] == '\n' by { assert !SingleNewlineAt(s, i - 1); }
        } else {
          assert r[i + 1] == '\n' by { assert !SingleNewlineAt(s, i + 1); }
        }
      }
    }
  }

  /** The clean-up is idempotent. */
  lemma RemoveSingleNewlinesIdempotent(s: string)
    ensures RemoveSingleNewlines(RemoveSingleNewlines(s)) == RemoveSingleNewlines(s)
  {
    NoSingleNewlineLeft(s);
  }

  // ---------------------------------------------------------------------------
  // OpenAPI documents
  // ---------------------------------------------------------------------------

  /** A parsed OpenAPI document; object members keep their enumeration order. */
  datatype Node =
    | Str(s: string)
    | Num(n: int)
    | Bool(b: bool)
    | Null
    | Arr(items: seq<Node>)
    | Obj(fields: seq<Field>)

  datatype Field = Field(key: string, value: Node)

  /** The members whose string value is cleaned. */
  predicate CleanedKey(key: string) {
    key == "description" || key == "summary"
  }

  /** `sanitizeSpec` */
  function SanitizeSpec(n: Node): Node
    decreases n, 1
  {
    match n
    case Arr(items) => Arr(seq(|items|, i requires 0 <= i < |items| => SanitizeSpec(items[i])))
    case Obj(fields) => Obj(seq(|fields|, i requires 0 <= i < |fields| => SanitizeField(fields[i])))
    case _ => n
  }

  function SanitizeField(f: Field): Field
    decreases f, 0
  {
    if CleanedKey(f.key) && f.value.Str? then Field(f.key, Str(RemoveSingleNewlines(f.value.s)))
    else Field(f.key, SanitizeSpec(f.value))
  }

/**
   * Two documents have the same structure (kinds, array lengths and member keys in order)
   * and differ at most in the string values of cleaned members; every other string and
   * every other scalar is the same.
   */
  predicate SameOutsideCleaned(a: Node, b: Node)
    decreases a
  {
    match a
    case Arr(xs) => b.Arr? && |xs| == |b.items|
      && forall i :: 0 <= i < |xs| ==> SameOutsideCleaned(xs[i], b.items[i])
    case Obj(fs) => b.Obj? && |fs| == |b.fields|
      && forall i :: 0 <= i < |fs| ==>
           && fs[i].key == b.fields[i].key
           && if CleanedKey(fs[i].key) && fs[i].value.Str? then b.fields[i].value.Str?
              else SameOutsideCleaned(fs[i].value, b.fields[i].value)
    case _ => a == b
  }

  /** Every cleaned member of a document holds no single newline. */
  predicate Clean(n: Node)
    decreases n
  {
    match n
    case Arr(xs) => forall i :: 0 <= i < |xs| ==> Clean(xs[i])
    case Obj(fs) => forall i :: 0 <= i < |fs| ==>
      (if CleanedKey(fs[i].key) && fs[i].value.Str?
       then forall j :: 0 <= j < |fs[i].value.s| ==> !SingleNewlineAt(fs[i].value.s, j)
       else Clean(fs[i].value))
    case _ => true
  }

  /**
   * Sanitising keeps the document's structure, and only the strings of `description` and
   * `summary` members change: every other value comes back as it was.
   */
  lemma {:induction false} SanitizeKeepsShape(n: Node)
    ensures SameOutsideCleaned(n, SanitizeSpec(n))
    decreases n
  {
    match n
    case Arr(xs) =>
      forall i | 0 <= i < |xs| ensures SameOutsideCleaned(xs[i], SanitizeSpec(n).items[i]) {
        SanitizeKeepsShape(xs[i]);
      }
    case Obj(fs) =>
      var gs := SanitizeSpec(n).fields;
      forall i | 0 <= i < |fs|
        ensures fs[i].key == gs[i].key
        ensures if CleanedKey(fs[i].key) && fs[i].value.Str? then gs[i].value.Str?
                else SameOutsideCleaned(fs[i].value, gs[i].value)
      {
        assert gs[i] == SanitizeField(fs[i]);
        if !(CleanedKey(fs[i].key) && fs[i].value.Str?) { SanitizeKeepsShape(fs[i].value); }
      }
    case _ =>
  }

  /** A sanitised document is clean. */
  lemma {:induction false} SanitizeCleans(n: Node)
    ensures Clean(SanitizeSpec(n))
    decreases n
  {
    match n
    case Arr(xs) =>
      forall i | 0 <= i < |xs| ensures Clean(SanitizeSpec(n).items[i]) {
        SanitizeCleans(xs[i]);
        assert SanitizeSpec(n).items[i] == SanitizeSpec(xs[i]);
      }
    case Obj(fs) =>
      var gs := SanitizeSpec(n).fields;
      forall i | 0 <= i < |fs|
        ensures if CleanedKey(gs[i].key) && gs[i].value.Str?
                then forall j :: 0 <= j < |gs[i].value.s| ==> !SingleNewlineAt(gs[i].value.s, j)
                else Clean(gs[i].value)
      {
        assert gs[i] == SanitizeField(fs[i]);
        if CleanedKey(fs[i].key) && fs[i].value.Str? {
          NoSingleNewlineLeft(fs[i].value.s);
        } else {
          SanitizeCleans(fs[i].value);
          assert gs[i].value.Str? == fs[i].value.Str?;
        }
      }
    case _ =>
  }

  /** A clean document is left as it is. */
  lemma {:induction false} SanitizeCleanIdentity(n: Node)
    requires Clean(n)
    ensures SanitizeSpec(n) == n
    decreases n
  {
    match n
    case Arr(xs) =>
      forall i | 0 <= i < |xs| ensures SanitizeSpec(xs[i]) == xs[i] {
        SanitizeCleanIdentity(xs[i]);
      }
      assert SanitizeSpec(n).items == xs;
    case Obj(fs) =>
      forall i | 0 <= i < |fs| ensures SanitizeField(fs[i]) == fs[i] {
        if CleanedKey(fs[i].key) && fs[i].value.Str? {
          var s := fs[i].value.s;
          assert RemoveSingleNewlines(s) == s;
        } else {
          SanitizeCleanIdentity(fs[i].value);
        }
      }
      assert SanitizeSpec(n).fields == fs;
    case _ =>
  }

  /** Sanitising twice is sanitising once. */
  lemma SanitizeIdempotent(n: Node)
    ensures SanitizeSpec(SanitizeSpec(n)) == SanitizeSpec(n)
  {
    SanitizeCleans(n);
    SanitizeCleanIdentity(SanitizeSpec(n));
  }
}
