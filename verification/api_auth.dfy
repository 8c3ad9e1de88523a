/**
 * The API playground's authentication fields: tokens typed into the REST `access_token`
 * query field or the webhook bearer `Authorization` header are shared through one stored
 * key, so that each field starts out with the token last entered in either.
 */
module ApiAuth {
  import opened Wrappers
  import opened Text

  const AuthTokenKey: string := "fn_api_auth_token"
  const AccessTokenField: string := "query.access_token"
  const AuthorizationField: string := "header.Authorization"
  const BearerPrefix: string := "Bearer "

  /** A field value of unknown type: a string or anything else. */
  datatype Value = Str(s: string) | NonString

  /** A string or `null` is truthy when present and not empty. */
  predicate Truthy(s: Option<string>) {
    s.Some? && s.value != ""
  }

  /**
   * `extractToken`: the trimmed value without a leading "Bearer " (trimmed again), or
   * nothing for a non-string or blank value.
   */
  function ExtractToken(v: Value): Option<string> {
    if v.NonString? then None else TokenOfTrimmed(Trim(v.s))
  }

  /** `extractToken` after the value has been trimmed. */
  function TokenOfTrimmed(trimmed: string): Option<string> {
    if trimmed == "" then None
    else if StartsWith(trimmed, BearerPrefix) then Some(Trim(trimmed[|BearerPrefix|..]))
    else Some(trimmed)
  }

  /** No token is found in a non-string or blank value, and one is found in any other value. */
  lemma ExtractTokenNone(v: Value)
    ensures ExtractToken(v).None? <==> v.NonString? || AllSpace(v.s)
  {
    if v.Str? { TrimEmptyIff(v.s); }
  }

  /** A token found is never empty and has no white space around it. */
  lemma ExtractTokenTrimmed(v: Value)
    ensures var r := ExtractToken(v);
      r.Some? ==> r.value != "" && Trim(r.value) == r.value
  {
    if v.Str? {
      var trimmed := Trim(v.s);
      if trimmed != "" {
        if StartsWith(trimmed, BearerPrefix) {
          StripBearer(trimmed);
        } else {
          TrimTrimmed(trimmed);
        }
      }
    }
  }

  /** What follows "Bearer " in a trimmed string is not blank. */
  lemma StripBearer(t: string)
    requires |t| > 0 && !IsSpace(t[|t| - 1]) && StartsWith(t, BearerPrefix)
    ensures |t| > |BearerPrefix|
    ensures Trim(t[|BearerPrefix|..]) != "" && Trim(Trim(t[|BearerPrefix|..])) == Trim(t[|BearerPrefix|..])
  {
    assert t[6] == ' ' by { assert t[..|BearerPrefix|][6] == t[6]; }
    assert |t| - 1 != 6;
    TrimSuffix(t, |BearerPrefix|);
  }

  /** A trimmed token without the prefix is extracted as it is. */
  lemma ExtractPlainToken(t: string)
    requires t != "" && Trim(t) == t && !StartsWith(t, BearerPrefix)
    ensures ExtractToken(Str(t)) == Some(t)
  {
  }

  /** A trimmed value starting with "Bearer " yields what follows the prefix, once trimmed. */
  lemma ExtractAfterPrefix(s: string, t: string)
    requires |s| > |BearerPrefix| && s[..|BearerPrefix|] == BearerPrefix && s[|BearerPrefix|..] == t
    requires Trim(s) == s
    ensures ExtractToken(Str(s)) == Some(Trim(t))
  {
  }

  /** A prefixed token is extracted without its prefix. */
  lemma ExtractBearerToken(t: string)
    requires t != "" && Trim(t) == t
    ensures ExtractToken(Str(BearerPrefix + t)) == Some(t)
  {
    PrefixedTrimmed(t);
    SplitPrefix(t);
    ExtractAfterPrefix(BearerPrefix + t, t);
  }

  lemma SplitPrefix(t: string)
    ensures (BearerPrefix + t)[..|BearerPrefix|] == BearerPrefix && (BearerPrefix + t)[|BearerPrefix|..] == t
  {
  }

  lemma PrefixedTrimmed(t: string)
    requires t != "" && !IsSpace(t[|t| - 1])
    ensures Trim(BearerPrefix + t) == BearerPrefix + t
  {
    var s := BearerPrefix + t;
    assert s[0] == 'B' && s[|s| - 1] == t[|t| - 1];
    TrimTrimmed(s);
  }

  // ---------------------------------------------------------------------------
  // The shared token store
  // ---------------------------------------------------------------------------

  /**
   * What `storeToken` does to the store, given the token extracted from the value: set the
   * key to the token, or remove the key when there is none and the field is the REST access
   * token, or nothing.
   */
  function StoreEffect(items: map<string, string>, fieldName: string, token: Option<string>): map<string, string> {
    if token.Some? then items[AuthTokenKey := token.value]
    else if fieldName == AccessTokenField then items - {AuthTokenKey}
    else items
  }

  /**
   * Storing touches no key but the shared one, and whatever it leaves under that key is
   * a non-empty trimmed token.
   */
  lemma StoreEffectKeys(items: map<string, string>, fieldName: string, value: Value)
    requires AuthTokenKey in items ==> items[AuthTokenKey] != "" && Trim(items[AuthTokenKey]) == items[AuthTokenKey]
    ensures var r := StoreEffect(items, fieldName, ExtractToken(value));
      && (forall k :: k != AuthTokenKey ==> (k in r <==> k in items) && (k in r ==> r[k] == items[k]))
      && (AuthTokenKey in r ==> r[AuthTokenKey] != "" && Trim(r[AuthTokenKey]) == r[AuthTokenKey])
  {
    var token := ExtractToken(value);
    ExtractTokenTrimmed(value);
    var r := StoreEffect(items, fieldName, token);
    if token.Some? {
      assert r == items[AuthTokenKey := token.value];
      assert r[AuthTokenKey] == token.value;
    } else if fieldName == AccessTokenField {
      assert r == items - {AuthTokenKey};
    } else {
      assert r == items;
    }
  }

  /** The browser's local storage, reduced to the string map it holds. */
  class TokenStore {
    var items: map<string, string>

    constructor(initial: map<string, string>)
      ensures items == initial
    {
      items := initial;
    }

    /**
     * `storeToken`. `hasWindow` is `typeof window !== "undefined"`: while the page is
     * rendered on the server there is no storage, and the call changes nothing.
     */
    method StoreToken(hasWindow: bool, fieldName: string, value: Value)
      modifies this
      ensures !hasWindow ==> items == old(items)
      ensures hasWindow ==> items == StoreEffect(old(items), fieldName, ExtractToken(value))
    {
      if !hasWindow {
        return;
      }
      var token := ExtractToken(value);
      StoreExtracted(fieldName, token);
    }

    /** The branches of `storeToken` once the token has been extracted. */
    method StoreExtracted(fieldName: string, token: Option<string>)
      modifies this
      ensures items == StoreEffect(old(items), fieldName, token)
    {
      if token.Some? {
        items := items[AuthTokenKey := token.value];
      } else if fieldName == AccessTokenField {
        items := items - {AuthTokenKey};
      }
    }

    /** `localStorage.getItem(key)` */
    function GetItem(key: string): Option<string>
      reads this
    {
      if key in items then Some(items[key]) else None
    }

    /** The REST field's `mapOutput`: stores the trimmed value and returns it. */
    method MapRestOutput(hasWindow: bool, fieldName: string, val: Value) returns (out: string)
      modifies this
      ensures out == RestOutput(val)
      ensures !hasWindow ==> items == old(items)
      ensures hasWindow ==> items == StoreEffect(old(items), fieldName, ExtractToken(Str(out)))
    {
      out := if val.Str? then Trim(val.s) else "";
      StoreToken(hasWindow, fieldName, Str(out));
    }

    /** The webhook field's `mapOutput`: stores the trimmed value and returns the header. */
    method MapWebhookOutput(hasWindow: bool, fieldName: string, val: Value) returns (out: string)
      modifies this
      ensures out == WebhookOutput(val)
      ensures !hasWindow ==> items == old(items)
      ensures hasWindow ==> items == StoreEffect(old(items), fieldName, ExtractToken(Str(if val.Str? then Trim(val.s) else "")))
    {
      var raw := if val.Str? then Trim(val.s) else "";
      StoreToken(hasWindow, fieldName, Str(raw));
      if raw == "" {
        out := BearerPrefix;
        return;
      }
      out := if StartsWith(raw, BearerPrefix) then raw else BearerPrefix + raw;
    }
  }

  // ---------------------------------------------------------------------------
  // Field defaults and outputs
  // ---------------------------------------------------------------------------

  /** The field's current default as a string, "" when it is not one. */
  function CurrentString(v: Value): string {
    if v.Str? then v.s else ""
  }

  /** The REST token's default: the current value if non-empty, else the shared token, else "". */
  function RestDefault(current: Value, shared: Option<string>): (r: string)
    ensures CurrentString(current) != "" ==> r == CurrentString(current)
    ensures CurrentString(current) == "" && Truthy(shared) ==> r == shared.value
    ensures CurrentString(current) == "" && !Truthy(shared) ==> r == ""
  {
    var cur := CurrentString(current);
    if cur != "" then cur else if Truthy(shared) then shared.value else ""
  }

  /** The REST token's `mapOutput` value: the trimmed string, or "" for a non-string. */
  function RestOutput(val: Value): (r: string)
    ensures val.Str? ==> (r == "" <==> AllSpace(val.s))
  {
    if val.Str? then
      TrimEmptyIff(val.s);
      Trim(val.s)
    else ""
  }

  /** The REST field's output carries the same token as the value typed into it. */
  lemma RestOutputSameToken(val: Value)
    ensures ExtractToken(Str(RestOutput(val))) == ExtractToken(val)
  {
    if val.Str? {
      TrimIdempotent(val.s);
    }
  }

  /**
   * The webhook header's default: the current value when it is "Bearer " with something
   * after it, else "Bearer " and the shared token, else "Bearer ".
   */
  function WebhookDefault(current: Value, shared: Option<string>): (r: string)
    ensures StartsWith(r, BearerPrefix)
  {
    var cur := CurrentString(current);
    if StartsWith(cur, BearerPrefix) && |Trim(cur)| > |"Bearer"| then cur
    else if Truthy(shared) then BearerPrefix + shared.value
    else BearerPrefix
  }

  /** A current header holding a non-blank token after "Bearer " is kept as the default. */
  lemma WebhookDefaultKeepsToken(token: string, shared: Option<string>)
    requires !AllSpace(token)
    ensures WebhookDefault(Str(BearerPrefix + token), shared) == BearerPrefix + token
  {
    var cur := BearerPrefix + token;
    var k :| 0 <= k < |token| && !IsSpace(token[k]);
    var p := |BearerPrefix| + k;
    assert cur[p] == token[k] && cur[0] == 'B';
    assert cur[..|BearerPrefix|] == BearerPrefix;
    TrimKeepsFrom(cur, p);
  }

  /** The webhook header's `mapOutput` value: the trimmed value, prefixed with "Bearer " when it lacks it. */
  function WebhookOutput(val: Value): (r: string)
    ensures StartsWith(r, BearerPrefix)
  {
    var raw := if val.Str? then Trim(val.s) else "";
    if raw == "" then BearerPrefix
    else if StartsWith(raw, BearerPrefix) then raw
    else BearerPrefix + raw
  }

  /** The header a token produces carries the same token as the value it came from. */
  lemma WebhookOutputKeepsToken(val: Value)
    requires val.Str? && !AllSpace(val.s)
    ensures ExtractToken(Str(WebhookOutput(val))) == ExtractToken(val)
  {
    var raw := Trim(val.s);
    TrimEmptyIff(val.s);
    TrimTrimmed(raw);
    if !StartsWith(raw, BearerPrefix) {
      ExtractBearerToken(raw);
      ExtractPlainToken(raw);
    }
  }

  // ---------------------------------------------------------------------------
  // Transforming the playground's fields
  // ---------------------------------------------------------------------------

  /** Which `mapOutput` a field carries: its original one, or one of the two token mappings. */
  datatype OutputMap = Original | RestToken | WebhookBearer

  datatype AuthField = AuthField(
    fieldName: string,
    defaultValue: Value,
    originalType: Option<string>,
    originalScheme: Option<string>,
    output: OutputMap)

  predicate IsAccessToken(f: AuthField) {
    f.fieldName == AccessTokenField
  }

  predicate IsBearerHeader(f: AuthField) {
    f.fieldName == AuthorizationField && f.originalType == Some("http") && f.originalScheme == Some("bearer")
  }

  /** One field of `transformAuthInputs`. */
  function TransformField(f: AuthField, shared: Option<string>): (r: AuthField)
    ensures r.fieldName == f.fieldName && r.originalType == f.originalType && r.originalScheme == f.originalScheme
    ensures !IsAccessToken(f) && !IsBearerHeader(f) ==> r == f
  {
    if IsAccessToken(f) then f.(defaultValue := Str(RestDefault(f.defaultValue, shared)), output := RestToken)
    else if IsBearerHeader(f) then f.(defaultValue := Str(WebhookDefault(f.defaultValue, shared)), output := WebhookBearer)
    else f
  }

  /**
   * `transformAuthInputs`: every field transformed, in place. On the server (`hasWindow`
   * false) the fields are returned as given, without defaults or outputs.
   */
  function TransformAuthInputs(fields: seq<AuthField>, hasWindow: bool, shared: Option<string>): (r: seq<AuthField>)
    ensures !hasWindow ==> r == fields
    ensures hasWindow ==> |r| == |fields|
    ensures hasWindow ==> forall i :: 0 <= i < |fields| ==> r[i] == TransformField(fields[i], shared)
  {
    if !hasWindow then fields
    else seq(|fields|, i requires 0 <= i < |fields| => TransformField(fields[i], shared))
  }

  /** Transforming a field twice with the same shared token is transforming it once. */
  lemma TransformFieldIdempotent(f: AuthField, shared: Option<string>)
    ensures TransformField(TransformField(f, shared), shared) == TransformField(f, shared)
  {
  }

  /** Transforming the fields again, as a re-render does, changes nothing more. */
  lemma TransformAuthInputsIdempotent(fields: seq<AuthField>, hasWindow: bool, shared: Option<string>)
    ensures TransformAuthInputs(TransformAuthInputs(fields, hasWindow, shared), hasWindow, shared)
         == TransformAuthInputs(fields, hasWindow, shared)
  {
    if hasWindow {
      var once := TransformAuthInputs(fields, hasWindow, shared);
      forall i | 0 <= i < |fields| ensures TransformField(once[i], shared) == once[i] {
        TransformFieldIdempotent(fields[i], shared);
      }
    }
  }
}
