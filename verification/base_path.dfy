/** Prefixing site-relative paths with the deployment's base path. */
module BasePath {
  import opened Wrappers
  import opened Text

  /** `getBasePath`: the configured base path, or "" when it is unset or empty. */
  function GetBasePath(configured: Option<string>): string {
    if configured.Some? && configured.value != "" then configured.value else ""
  }

  /** An empty base path and an unset one mean the same: `||` and `??` agree here. */
  lemma GetBasePathDefault(configured: Option<string>)
    ensures GetBasePath(configured) == configured.GetOr("")
  {
  }

  /** The path made absolute by a leading '/' when it has none. */
  function CleanPath(path: string): (r: string)
    ensures StartsWith(r, "/")
    ensures StartsWith(path, "/") ==> r == path
    ensures !StartsWith(path, "/") ==> r == "/" + path
  {
    if StartsWith(path, "/") then path else "/" + path
  }

  /** Cleaning an already clean path changes nothing. */
  lemma CleanPathIdempotent(path: string)
    ensures CleanPath(CleanPath(path)) == CleanPath(path)
  {
  }

  /** `withBasePath` */
  function WithBasePath(configured: Option<string>, path: string): string {
    GetBasePath(configured) + CleanPath(path)
  }

  /**
   * The result is the base path followed by the path, with exactly one '/' added between
   * them when the path has none of its own.
   */
  lemma WithBasePathShape(configured: Option<string>, path: string)
    ensures var base := GetBasePath(configured);
      var r := WithBasePath(configured, path);
      && r[..|base|] == base
      && StartsWith(r[|base|..], "/")
      && (StartsWith(path, "/") ==> r == base + path)
      && (!StartsWith(path, "/") ==> r == base + "/" + path)
  {
    var base := GetBasePath(configured);
    var r := WithBasePath(configured, path);
    assert r[..|base|] == base;
    assert r[|base|..] == CleanPath(path);
  }
}
