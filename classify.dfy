/** The Traefik router classifiers: zone by router-name suffix, the router
    name glob filter, the middleware filter and `Host(...)` extraction, and
    the way `get_routes` combines them into routes for one instance. */
module Classify {
  import opened Strings

  datatype Zone = Internal | External

  /** A provider's `default_zone` setting: anything but "external" is internal. */
  function ParseDefaultZone(s: string): (z: Zone)
    ensures z == External <==> s == "external"
  {
    if s != "external" then Internal else External
  }

  // ---------------------------------------------------------------------
  // Zone suffix: `-(internal|external)(?:@|$)`, case-insensitive, searched.

  /** The eight letters of a zone word at `s[i..i + 8]`, folded to lower case. */
  predicate WordAt(s: string, i: nat, w: string)
  {
    |w| == 8 && i + 8 <= |s| && Lower(s[i..i + 8]) == w
  }

  /** `$` without MULTILINE holds at the end and just before a final newline. */
  predicate DollarAt(s: string, e: nat)
  {
    e == |s| || (e + 1 == |s| && s[e] == '\n')
  }

  /** The zone suffix expression matches at position `i` with zone word `w`. */
  predicate ZoneMarkWith(s: string, i: nat, w: string)
  {
    i < |s| && s[i] == '-' && WordAt(s, i + 1, w) &&
    (DollarAt(s, i + 9) || (i + 9 < |s| && s[i + 9] == '@'))
  }

  predicate ZoneMarkAt(s: string, i: nat)
  {
    ZoneMarkWith(s, i, "internal") || ZoneMarkWith(s, i, "external")
  }

  function ZoneAt(s: string, i: nat): Zone
  {
    if ZoneMarkWith(s, i, "external") then External else Internal
  }

  /** The search from position `i`, returning the zone of the leftmost match. */
  function ScanZone(s: string, i: nat, dflt: Zone): (z: Zone)
    ensures (forall j :: i <= j < |s| ==> !ZoneMarkAt(s, j)) ==> z == dflt
    ensures forall j :: i <= j < |s| && ZoneMarkAt(s, j) && (forall k :: i <= k < j ==> !ZoneMarkAt(s, k)) ==>
      z == ZoneAt(s, j)
    decreases |s| - i
  {
    if i >= |s| then dflt
    else if ZoneMarkAt(s, i) then ZoneAt(s, i)
    else ScanZone(s, i + 1, dflt)
  }

  /** `_detect_zone`: the zone named by the leftmost suffix match in the
      router name, else the configured default. */
  function DetectZone(routerName: string, dflt: Zone): (z: Zone)
    ensures (forall j :: 0 <= j < |routerName| ==> !ZoneMarkAt(routerName, j)) ==> z == dflt
    ensures forall j :: 0 <= j < |routerName| && ZoneMarkAt(routerName, j) && (forall k :: 0 <= k < j ==> !ZoneMarkAt(routerName, k)) ==>
      z == ZoneAt(routerName, j)
  {
    if routerName == [] then dflt else ScanZone(routerName, 0, dflt)
  }

  /** A name ending in `-<word>` or `-<word>@<provider>` gets that zone
      whatever the default, provided the segment before holds no marker. */
  lemma SuffixOverridesDefault(base: string, w: string, rest: string, dflt: Zone)
    requires w == "internal" || w == "external"
    requires rest == [] || rest[0] == '@'
    requires forall j :: 0 <= j < |base| ==> !ZoneMarkAt(base + "-" + w + rest, j)
    ensures DetectZone(base + "-" + w + rest, dflt) == (if w == "external" then External else Internal)
  {
    var s := base + "-" + w + rest;
    var i := |base|;
    assert s[i] == '-';
    assert s[i + 1..i + 9] == w;
    assert Lower(w) == w;
    assert i + 9 == |s| || s[i + 9] == '@';
    assert ZoneMarkWith(s, i, w);
    assert w == "internal" ==> !ZoneMarkWith(s, i, "external");
    assert ZoneMarkAt(s, i) && forall k :: 0 <= k < i ==> !ZoneMarkAt(s, k);
    assert DetectZone(s, dflt) == ZoneAt(s, i);
  }

  /** Upper-case markers count: "app-EXTERNAL" is external. */
  lemma ZoneIgnoresCase(dflt: Zone)
    ensures DetectZone("app-EXTERNAL", dflt) == External
  {
    var s := "app-EXTERNAL";
    assert ZoneMarkWith(s, 3, "external") by {
      assert s[4..12] == "EXTERNAL";
    }
    forall j | 0 <= j < 3 ensures !ZoneMarkAt(s, j) {
      assert s[j] != '-';
    }
  }

  /** A marker that neither ends the name nor is followed by `@` is ignored:
      "app-internals" keeps the default. */
  lemma ZoneNeedsBoundary(dflt: Zone)
    ensures DetectZone("app-internals", dflt) == dflt
  {
    var s := "app-internals";
    assert |s| == 13 && s[12] == 's';
    forall j | 0 <= j < |s| ensures !ZoneMarkAt(s, j) {
      if j == 3 {
        assert !DollarAt(s, 12) && s[12] != '@';
      } else {
        assert s[j] != '-';
      }
    }
  }

  // ---------------------------------------------------------------------
  // Globs with `*` and `?`.

  /** `p` matches the whole of `s`: `*` any run of characters, `?` any one
      character, anything else itself. Without `dotAll` the wildcards do not
      match a newline (as `.` in a regular expression). */
  predicate Glob(p: string, s: string, dotAll: bool)
    decreases |p| + |s|
  {
    if p == [] then s == []
    else if p[0] == '*' then
      Glob(p[1..], s, dotAll) || (s != [] && (dotAll || s[0] != '\n') && Glob(p, s[1..], dotAll))
    else
      s != [] && (if p[0] == '?' then dotAll || s[0] != '\n' else p[0] == s[0]) &&
      Glob(p[1..], s[1..], dotAll)
  }

  /** A literal contains no wildcard. */
  predicate Literal(p: string)
  {
    '*' !in p && '?' !in p
  }

  /** A run of characters a star can span. */
  predicate Spannable(s: string, dotAll: bool)
  {
    dotAll || '\n' !in s
  }

  /** A pattern without wildcards matches exactly itself. */
  lemma {:induction false} GlobLiteral(p: string, s: string, dotAll: bool)
    requires Literal(p)
    ensures Glob(p, s, dotAll) <==> s == p
  {
    if p != [] && s != [] {
      GlobLiteral(p[1..], s[1..], dotAll);
      if s == p {
        assert s[1..] == p[1..];
      }
    }
  }

  /** A leading star spans some prefix, and the rest of the pattern matches the rest. */
  lemma {:induction false} GlobStar(t: string, s: string, dotAll: bool)
    ensures Glob(['*'] + t, s, dotAll) <==>
      exists k :: 0 <= k <= |s| && Spannable(s[..k], dotAll) && Glob(t, s[k..], dotAll)
  {
    var p := ['*'] + t;
    assert p[1..] == t;
    if s == [] {
      if Glob(t, s, dotAll) {
        assert s[..0] == [] && s[0..] == s;
      }
    } else {
      GlobStar(t, s[1..], dotAll);
      if Glob(p, s, dotAll) {
        if Glob(t, s, dotAll) {
          assert s[..0] == [] && s[0..] == s;
        } else {
          var k :| 0 <= k <= |s[1..]| && Spannable(s[1..][..k], dotAll) && Glob(t, s[1..][k..], dotAll);
          assert s[..k + 1] == [s[0]] + s[1..][..k];
          assert s[k + 1..] == s[1..][k..];
        }
      }
      if exists k :: 0 <= k <= |s| && Spannable(s[..k], dotAll) && Glob(t, s[k..], dotAll) {
        var k :| 0 <= k <= |s| && Spannable(s[..k], dotAll) && Glob(t, s[k..], dotAll);
        if k > 0 {
          assert s[0] == s[..k][0];
          assert s[1..][..k - 1] == s[1..k];
          assert forall c :: c in s[1..k] ==> c in s[..k];
          assert s[1..][k - 1..] == s[k..];
        } else {
          assert s[0..] == s;
        }
      }
    }
  }

  /** `*<literal>` matches exactly the strings ending in the literal, for
      example `*-internal` and "app-internal". */
  lemma StarLiteralIsSuffix(t: string, s: string)
    requires Literal(t)
    ensures Glob(['*'] + t, s, true) <==> |t| <= |s| && s[|s| - |t|..] == t
  {
    GlobStar(t, s, true);
    if |t| <= |s| && s[|s| - |t|..] == t {
      GlobLiteral(t, s[|s| - |t|..], true);
    }
    if Glob(['*'] + t, s, true) {
      var k :| 0 <= k <= |s| && Spannable(s[..k], true) && Glob(t, s[k..], true);
      GlobLiteral(t, s[k..], true);
    }
  }

  /** `<literal>*` matches exactly the strings starting with the literal, for
      example `app-*`. */
  lemma {:induction false} LiteralStarIsPrefix(t: string, s: string)
    requires Literal(t)
    ensures Glob(t + ['*'], s, true) <==> t <= s
  {
    if t == [] {
      assert t + ['*'] == ['*'] + t;
      GlobStar(t, s, true);
      var k := |s|;
      assert Spannable(s[..k], true) && Glob(t, s[k..], true);
    } else {
      assert (t + ['*'])[0] == t[0] && (t + ['*'])[1..] == t[1..] + ['*'];
      assert t[0] in t;
      assert forall c :: c in t[1..] ==> c in t;
      var p := t + ['*'];
      assert p[0] != '*' && p[0] != '?';
      assert Glob(p, s, true) == (s != [] && p[0] == s[0] && Glob(p[1..], s[1..], true));
      if s != [] {
        LiteralStarIsPrefix(t[1..], s[1..]);
        if t <= s {
          assert t[0] == s[0] && t[1..] == s[1..][..|t| - 1];
          assert t[1..] <= s[1..];
        }
        if t[0] == s[0] && t[1..] <= s[1..] {
          assert t[1..] == s[1..][..|t| - 1];
          assert t == [s[0]] + t[1..] && s[..|t|] == [s[0]] + s[1..][..|t| - 1];
          assert t <= s;
        }
        assert Glob(p, s, true) <==> t <= s;
      } else {
        assert !(t <= s);
      }
    }
  }

  /** `_matches_filter`: an empty filter admits every router. */
  predicate MatchesFilter(routerName: string, pattern: string)
  {
    pattern == [] || Glob(pattern, routerName, true)
  }

  /** A filter without wildcards admits only the router of that very name. */
  lemma LiteralFilterIsEquality(routerName: string, pattern: string)
    requires pattern != [] && Literal(pattern)
    ensures MatchesFilter(routerName, pattern) <==> routerName == pattern
  {
    GlobLiteral(pattern, routerName, true);
  }

  // ---------------------------------------------------------------------
  // Middleware filter.

  datatype MiddlewareEntry = Named(name: string) | NotText

  /** A router's `middlewares` value: absent, a list, or something else. */
  datatype Middlewares = Missing | Listed(entries: seq<MiddlewareEntry>) | NotAList

  /** One entry names the middleware: its part before `@`, case-folded. */
  predicate NamesMiddleware(e: MiddlewareEntry, wanted: string)
  {
    e.Named? && Lower(BeforeFirst(e.name, '@')) == Lower(wanted)
  }

  function AnyNames(entries: seq<MiddlewareEntry>, wanted: string): (b: bool)
    ensures b <==> exists k :: 0 <= k < |entries| && NamesMiddleware(entries[k], wanted)
  {
    if entries == [] then false
    else NamesMiddleware(entries[0], wanted) || AnyNames(entries[1..], wanted)
  }

  /** `_has_middleware`: true for an empty name; otherwise some string entry
      of the list, stripped of its `@provider` part, equals the name ignoring
      case. A missing list is empty; a non-list never matches. */
  function HasMiddleware(mws: Middlewares, wanted: string): (b: bool)
    ensures b <==> (wanted == [] ||
      (mws.Listed? && exists k :: 0 <= k < |mws.entries| && NamesMiddleware(mws.entries[k], wanted)))
  {
    if wanted == [] then true
    else match mws
      case Missing => AnyNames([], wanted)
      case NotAList => false
      case Listed(entries) => AnyNames(entries, wanted)
  }

  /** "Auth" finds `auth@file`: the provider suffix and case are ignored. */
  lemma ProviderSuffixIgnored(base: string, provider: string, wanted: string)
    requires '@' !in base && Lower(base) == Lower(wanted) && wanted != []
    ensures HasMiddleware(Listed([Named(base + "@" + provider)]), wanted)
  {
    var s := base + "@" + provider;
    assert s[|base|] == '@' && s[..|base|] == base;
    assert BeforeFirst(s, '@') == base;
  }

  // ---------------------------------------------------------------------
  // `Host(...)`: `Host\([`"']([^`"']+)[`"']\)`, all non-overlapping matches.

  predicate IsQuote(c: char)
  {
    c == '`' || c == '"' || c == '\''
  }

  /** The first quote at or after `j`, or `|s|`. */
  function QuoteFrom(s: string, j: nat): (k: nat)
    requires j <= |s|
    ensures j <= k <= |s|
    ensures k < |s| ==> IsQuote(s[k])
    ensures forall m :: j <= m < k ==> !IsQuote(s[m])
    decreases |s| - j
  {
    if j == |s| || IsQuote(s[j]) then j else QuoteFrom(s, j + 1)
  }

  /** The expression matches at `i`: "Host(", a quote, at least one
      non-quote character, a quote, ")". */
  predicate HostAt(s: string, i: nat)
  {
    i + 6 <= |s| && s[i..i + 5] == "Host(" && IsQuote(s[i + 5]) &&
    var k := QuoteFrom(s, i + 6);
    i + 6 < k && k + 1 < |s| && s[k + 1] == ')'
  }

  /** The captured hostname of a match at `i`. */
  function HostGroup(s: string, i: nat): (h: string)
    requires HostAt(s, i)
    ensures h != [] && forall c :: c in h ==> !IsQuote(c)
  {
    s[i + 6..QuoteFrom(s, i + 6)]
  }

  /** Where a match at `i` ends. */
  function HostEnd(s: string, i: nat): (e: nat)
    requires HostAt(s, i)
    ensures i < e <= |s|
  {
    QuoteFrom(s, i + 6) + 2
  }

  /** `finditer` from position `p`: the groups of the successive matches,
      each search resuming where the previous match ended. */
  function FindHosts(s: string, p: nat): (hs: seq<string>)
    ensures forall h :: h in hs ==> exists i :: p <= i && HostAt(s, i) && HostGroup(s, i) == h
    ensures (forall i :: p <= i < |s| ==> !HostAt(s, i)) ==> hs == []
    decreases |s| - p
  {
    if p >= |s| then []
    else if HostAt(s, p) then [HostGroup(s, p)] + FindHosts(s, HostEnd(s, p))
    else FindHosts(s, p + 1)
  }

  /** The search skips to the leftmost match, yields its group and resumes
      after it: the iteration order of `finditer`. */
  lemma {:induction false} FindHostsLeftmost(s: string, p: nat, i: nat)
    requires p <= i && HostAt(s, i)
    requires forall j :: p <= j < i ==> !HostAt(s, j)
    ensures FindHosts(s, p) == [HostGroup(s, i)] + FindHosts(s, HostEnd(s, i))
    decreases i - p
  {
    if p < i {
      FindHostsLeftmost(s, p + 1, i);
    }
  }

  /** `_extract_hostnames`: the distinct hostnames of all matches, sorted. */
  function ExtractHostnames(rule: string): (hs: seq<string>)
    ensures StrictlySorted(hs)
    ensures forall h :: h in hs <==> h in FindHosts(rule, 0)
    ensures forall h :: h in hs ==> h != [] && forall c :: c in h ==> !IsQuote(c)
  {
    SortDistinct(FindHosts(rule, 0))
  }

  /** A rule that is a single `Host(`h`)` yields exactly `h`. */
  lemma SingleHostRule(h: string)
    requires h != [] && forall c :: c in h ==> !IsQuote(c)
    ensures ExtractHostnames("Host(`" + h + "`)") == [h]
  {
    var s := "Host(`" + h + "`)";
    assert s[0..5] == "Host(";
    assert s[6..6 + |h|] == h;
    assert QuoteFrom(s, 6) == 6 + |h| by {
      assert s[6 + |h|] == '`';
      forall m | 6 <= m < 6 + |h| ensures !IsQuote(s[m]) {
        assert s[m] == h[m - 6];
      }
    }
    assert HostAt(s, 0);
    assert FindHosts(s, HostEnd(s, 0)) == [];
    assert FindHosts(s, 0) == [h];
    StrictlySortedUnique(ExtractHostnames(s), [h]);
  }

  // ---------------------------------------------------------------------
  // Routes of one instance (`get_routes` after the HTTP fetch).

  /** One Traefik proxy instance as configured. */
  datatype Instance = Instance(name: string, url: string, targetIp: string,
                               routerFilter: string, middlewareFilter: string)

  /** One entry of the routers list; a missing name or rule is "". */
  datatype Router = Router(name: string, rule: string, middlewares: Middlewares) | NotADict

  datatype Route = Route(hostname: string, sourceName: string, targetIp: string, zone: Zone, routerName: string)

  /** A router survives both configured filters. */
  predicate Admitted(inst: Instance, r: Router)
  {
    r.Router? && MatchesFilter(r.name, inst.routerFilter) && HasMiddleware(r.middlewares, inst.middlewareFilter)
  }

  /** The route `get_routes` makes for hostname `h` of router `r`. */
  function RouteFor(inst: Instance, r: Router, h: string, dflt: Zone): Route
    requires r.Router?
  {
    Route(h, inst.name, inst.targetIp, DetectZone(r.name, dflt), r.name)
  }

  /** `rt` is the route of one of the hostnames of admitted router `r`. */
  predicate FromRouter(inst: Instance, r: Router, rt: Route, dflt: Zone)
  {
    Admitted(inst, r) && exists h :: h in ExtractHostnames(r.rule) && rt == RouteFor(inst, r, h, dflt)
  }

  function RoutesForHosts(inst: Instance, r: Router, hs: seq<string>, dflt: Zone): (rs: seq<Route>)
    requires r.Router?
    ensures |rs| == |hs|
    ensures forall k :: 0 <= k < |hs| ==> rs[k] == RouteFor(inst, r, hs[k], dflt)
  {
    if hs == [] then [] else [RouteFor(inst, r, hs[0], dflt)] + RoutesForHosts(inst, r, hs[1..], dflt)
  }

  /** The routes of one router: one per hostname of its rule, if admitted. */
  function RouterRoutes(inst: Instance, r: Router, dflt: Zone): (rs: seq<Route>)
    ensures forall rt :: rt in rs <==> FromRouter(inst, r, rt, dflt)
  {
    if Admitted(inst, r) then
      var hs := ExtractHostnames(r.rule);
      var here := RoutesForHosts(inst, r, hs, dflt);
      assert forall rt :: rt in here ==> FromRouter(inst, r, rt, dflt) by {
        forall rt | rt in here ensures FromRouter(inst, r, rt, dflt) {
          var k :| 0 <= k < |here| && here[k] == rt;
          assert hs[k] in hs;
        }
      }
      assert forall h :: h in hs ==> RouteFor(inst, r, h, dflt) in here by {
        forall h | h in hs ensures RouteFor(inst, r, h, dflt) in here {
          var k :| 0 <= k < |hs| && hs[k] == h;
          assert here[k] == RouteFor(inst, r, h, dflt);
        }
      }
      here
    else []
  }

  /** The routes of a routers list, router by router, hostnames sorted. */
  function RoutesOf(inst: Instance, routers: seq<Router>, dflt: Zone): (rs: seq<Route>)
    ensures forall rt :: rt in rs <==> exists k :: 0 <= k < |routers| && FromRouter(inst, routers[k], rt, dflt)
  {
    if routers == [] then []
    else
      var rest := RoutesOf(inst, routers[1..], dflt);
      assert forall k :: 1 <= k < |routers| ==> routers[k] == routers[1..][k - 1];
      RouterRoutes(inst, routers[0], dflt) + rest
  }
}
