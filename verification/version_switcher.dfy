/**
 * The API version switcher: which section and version the current page belongs to,
 * which versions it may switch to, and the path a switch navigates to.
 */
module VersionSwitcher {
  import opened Wrappers
  import opened Text
  import opened Source

  /** The section of a pathname: REST API before webhooks, decided by substring. */
  function DetectSection(pathname: string): (r: Option<string>)
    ensures r == Some(RestApi) <==> Contains(pathname, "/rest-api/")
    ensures r == Some(Webhooks) <==> !Contains(pathname, "/rest-api/") && Contains(pathname, "/webhooks/")
    ensures r.None? <==> !Contains(pathname, "/rest-api/") && !Contains(pathname, "/webhooks/")
  {
    if Contains(pathname, "/rest-api/") then Some(RestApi)
    else if Contains(pathname, "/webhooks/") then Some(Webhooks)
    else None
  }

  /** `segments.find(s => /^v\d+$/.test(s))` */
  function FindVersion(segs: seq<string>): Option<string> {
    if |segs| == 0 then None
    else if IsVersion(segs[0]) then Some(segs[0])
    else FindVersion(segs[1..])
  }

  /** The version found is the first version-shaped segment; nothing is found only when there is none. */
  lemma {:induction false} FindVersionFirst(segs: seq<string>)
    ensures var r := FindVersion(segs);
      r.Some? ==> (exists i :: 0 <= i < |segs| && segs[i] == r.value && IsVersion(r.value)
                     && forall j :: 0 <= j < i ==> !IsVersion(segs[j]))
    ensures FindVersion(segs).None? <==> forall j :: 0 <= j < |segs| ==> !IsVersion(segs[j])
    decreases |segs|
  {
    if |segs| > 0 && !IsVersion(segs[0]) {
      var rest := segs[1..];
      FindVersionFirst(rest);
      assert forall j :: 1 <= j < |segs| ==> segs[j] == rest[j - 1];
      var r := FindVersion(rest);
      if r.Some? {
        var i :| 0 <= i < |rest| && rest[i] == r.value && IsVersion(r.value)
          && forall j :: 0 <= j < i ==> !IsVersion(rest[j]);
        assert segs[i + 1] == r.value;
      }
    }
  }

  /** The version shown for a pathname: its first version-shaped segment, "" outside a section or without one. */
  function DetectVersion(pathname: string): string {
    if DetectSection(pathname).None? then ""
    else FindVersion(Segments(pathname, '/')).GetOr("")
  }

  /** A page of a section, addressed by its path segments, shows the first version among them. */
  lemma DetectVersionOfPath(segs: seq<string>)
    requires |segs| >= 1
    requires forall i :: 0 <= i < |segs| ==> segs[i] != "" && '/' !in segs[i]
    ensures var pathname := "/" + Join(segs, "/");
      DetectSection(pathname).Some? ==> DetectVersion(pathname) == FindVersion(segs).GetOr("")
  {
    SegmentsOfPath(segs);
  }

  /** `availableVersions[section] || []` */
  function Options(available: map<string, seq<string>>, section: string): seq<string> {
    if section in available then available[section] else []
  }

  /** The switcher renders only inside a section that has at least one version. */
  predicate Shown(available: map<string, seq<string>>, pathname: string) {
    DetectSection(pathname).Some? && |Options(available, DetectSection(pathname).value)| > 0
  }

  /**
   * With the version lists the site publishes, the switcher appears in a section exactly
   * when some page of the site publishes a version there.
   */
  lemma ShownIffPublished(available: map<string, seq<string>>, pathname: string, published: map<string, set<string>>)
    requires forall s :: s in available ==> s in published && VersionList(available[s], published[s])
    requires available.Keys == {RestApi, Webhooks}
    ensures Shown(available, pathname)
      <==> DetectSection(pathname).Some? && published[DetectSection(pathname).value] != {}
  {
    var section := DetectSection(pathname);
    if section.Some? {
      var vs := available[section.value];
      if |vs| > 0 {
        assert vs[0] in published[section.value];
      }
    }
  }

  /** The path a switch navigates to: the first "/<current>/" becomes "/<new>/". */
  function SwitchedPath(pathname: string, current: string, next: string): string {
    Replace(pathname, "/" + current + "/", "/" + next + "/")
  }

  /**
   * Switching rewrites exactly the first occurrence of the current version segment, and
   * leaves the pathname alone when there is none.
   */
  lemma SwitchedPathShape(pathname: string, current: string, next: string)
    requires IsVersion(next)
    ensures var p := "/" + current + "/";
      match IndexOf(pathname, p)
      case None => SwitchedPath(pathname, current, next) == pathname
      case Some(i) => SwitchedPath(pathname, current, next) == pathname[..i] + "/" + next + "/" + pathname[i + |p|..]
  {
    var rep := "/" + next + "/";
    assert '$' !in rep by {
      forall k | 0 <= k < |rep| ensures rep[k] != '$' {
        if 0 < k < |rep| - 1 { assert rep[k] == next[k - 1]; }
      }
    }
    ReplaceLiteral(pathname, "/" + current + "/", rep);
  }

  /** A version page's path with its version replaced is the same page in the other version. */
  lemma SwitchVersionPage(prefix: string, current: string, next: string, tail: string)
    requires IsVersion(current) && IsVersion(next)
    requires !Contains(prefix + "/" + current, "/" + current + "/")
    ensures SwitchedPath(prefix + "/" + current + "/" + tail, current, next) == prefix + "/" + next + "/" + tail
  {
    var p := "/" + current + "/";
    var s := prefix + "/" + current + "/" + tail;
    var i := |prefix|;
    assert s[i..i + |p|] == p;
    assert OccursAt(s, p, i);
    ContainsIff(prefix + "/" + current, p);
    assert forall j :: 0 <= j < i ==> !OccursAt(s, p, j) by {
      forall j | 0 <= j < i ensures !OccursAt(s, p, j) {
        assert !OccursAt(prefix + "/" + current, p, j);
      }
    }
    SwitchedPathShape(s, current, next);
    assert IndexOf(s, p) == Some(i);
    assert s[..i] == prefix && s[i + |p|..] == tail;
  }

  /** The switcher's state: the page it is on, what it detected there, the popover and the router's history. */
  class Switcher {
    var pathname: string
    var section: Option<string>
    var currentVersion: string
    var open: bool
    var pushed: seq<string>

    /** Mounting on a page: the effect that detects section and version has run. */
    constructor(pathname: string)
      ensures this.pathname == pathname && section == DetectSection(pathname)
      ensures currentVersion == DetectVersion(pathname)
      ensures !open && pushed == []
    {
      this.pathname := pathname;
      section := DetectSection(pathname);
      currentVersion := DetectVersion(pathname);
      open := false;
      pushed := [];
    }

    /** `handleVersionSelect` */
    method SelectVersion(newVersion: string)
      modifies this
      ensures !open && pathname == old(pathname) && section == old(section)
      ensures newVersion == old(currentVersion) ==> currentVersion == old(currentVersion) && pushed == old(pushed)
      ensures newVersion != old(currentVersion) ==>
        currentVersion == newVersion && pushed == old(pushed) + [SwitchedPath(pathname, old(currentVersion), newVersion)]
    {
      if newVersion == currentVersion {
        open := false;
        return;
      }
      var previous := currentVersion;
      currentVersion := newVersion;
      open := false;
      pushed := pushed + [Replace(pathname, "/" + previous + "/", "/" + newVersion + "/")];
    }
  }
}
