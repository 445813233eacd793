/**
 The Vercel build adapter's `write()` (packages/app/src/node/build/adapter/vercel/adapter.ts):
 the redirect rules, the page path overrides, the ordered routing rules with
 one rule per endpoint directory, the choice between an edge and a node
 function with its configuration, and the generated function entry code.

 Path helpers (`slash`, `endslash`, `noendslash`, `isLinkExternal`) and the
 trailing-slash rule lists are parameters; the file system, `esbuild` and
 the concurrent fan-out are not modelled.
 */
module VercelAdapter {

  import opened Wrappers
  import opened Strings
  import opened Seqs
  import opened OrderedMap
  import opened Json
  import StaticAdapter

  /** `config?.trailingSlash ?? false`; the same value is handed to the static adapter it wraps. */
  function UseTrailingSlash(trailingSlash: Option<bool>): (r: bool)
    ensures trailingSlash.None? ==> !r
    ensures trailingSlash.Some? ==> r == trailingSlash.value
  {
    trailingSlash.GetOr(false)
  }

  /** The options of the wrapped static adapter: its trailing-slash policy is this adapter's. */
  function StaticOptions(trailingSlash: Option<bool>): (o: StaticAdapter.Options)
    ensures StaticAdapter.TrailingSlash(o) == UseTrailingSlash(trailingSlash)
  {
    StaticAdapter.Options(Some(UseTrailingSlash(trailingSlash)))
  }

  /** A routing rule of `config.json`; absent fields are `None` or empty. */
  datatype Rule = Rule(src: Option<string>, dest: Option<string>, headers: Entries<string>, status: Option<int>,
                       handle: Option<string>)

  /** The path helpers the adapter calls. */
  datatype PathHelpers = PathHelpers(slash: string -> string, endslash: string -> string,
                                     noendslash: string -> string, isLinkExternal: string -> bool)

  /** `from.replace(/\/$/, '/?')`: a final `/` becomes `/?`; anything else is kept. */
  function RedirectSrc(from: string): (r: string)
    ensures |from| > 0 && from[|from| - 1] == '/' ==> r == from + "?"
    ensures !(|from| > 0 && from[|from| - 1] == '/') ==> r == from
    ensures IsPrefix(from, r)
  {
    if |from| > 0 && from[|from| - 1] == '/' then from[..|from| - 1] + "/?" else from
  }

  /** The `Location` header: external links as given, others with the slash policy applied. */
  function Location(to: string, useTrailingSlash: bool, p: PathHelpers): (r: string)
    ensures p.isLinkExternal(to) ==> r == to
    ensures !p.isLinkExternal(to) && useTrailingSlash ==> r == p.endslash(to)
    ensures !p.isLinkExternal(to) && !useTrailingSlash ==> r == p.noendslash(to)
  {
    if p.isLinkExternal(to) then to else if useTrailingSlash then p.endslash(to) else p.noendslash(to)
  }

  function RedirectRule(r: StaticAdapter.StaticRedirect, useTrailingSlash: bool, p: PathHelpers): Rule
  {
    Rule(Some(RedirectSrc(r.from)), None, [("Location", Location(r.to, useTrailingSlash, p))], Some(r.status), None)
  }

  /** One rule per static redirect, in order, carrying its status. */
  function RedirectRules(redirects: seq<StaticAdapter.StaticRedirect>, useTrailingSlash: bool, p: PathHelpers): (r: seq<Rule>)
    ensures |r| == |redirects|
    ensures forall i :: 0 <= i < |r| ==>
              r[i].src == Some(RedirectSrc(redirects[i].from)) && r[i].status == Some(redirects[i].status)
              && Get(r[i].headers, "Location") == Some(Location(redirects[i].to, useTrailingSlash, p))
  {
    seq(|redirects|, i requires 0 <= i < |redirects| => RedirectRule(redirects[i], useTrailingSlash, p))
  }

  /** The path override of one page: its file name without the first `index.html` and the end slash. */
  function OverridePath(filename: string, p: PathHelpers): string
  {
    p.noendslash(ReplaceFirst(filename, "index.html", ""))
  }

  function OverridePairs(renders: seq<StaticAdapter.Render>, p: PathHelpers): (r: seq<(string, string)>)
    ensures |r| == |renders| && forall i :: 0 <= i < |r| ==> r[i] == (renders[i].filename, OverridePath(renders[i].filename, p))
  {
    seq(|renders|, i requires 0 <= i < |renders| => (renders[i].filename, OverridePath(renders[i].filename, p)))
  }

  /** `overrides`: every rendered file name maps to its override path. */
  function Overrides(renders: seq<StaticAdapter.Render>, p: PathHelpers): (r: Entries<string>)
    ensures UniqueKeys(r)
    ensures forall k :: HasKey(r, k) <==> exists i :: 0 <= i < |renders| && renders[i].filename == k
    ensures forall i :: 0 <= i < |renders| ==> Get(r, renders[i].filename) == Some(OverridePath(renders[i].filename, p))
  {
    var r := StaticAdapter.TableOf(OverridePairs(renders, p));
    OverridesGet(renders, p, r);
    OverridesKeys(renders, p, r);
    r
  }

  lemma OverridesGet(renders: seq<StaticAdapter.Render>, p: PathHelpers, r: Entries<string>)
    requires r == StaticAdapter.TableOf(OverridePairs(renders, p))
    ensures forall i :: 0 <= i < |renders| ==> Get(r, renders[i].filename) == Some(OverridePath(renders[i].filename, p))
  {
    forall i | 0 <= i < |renders| ensures Get(r, renders[i].filename) == Some(OverridePath(renders[i].filename, p)) {
      OverrideAt(renders, p, r, i);
    }
  }

  lemma OverrideAt(renders: seq<StaticAdapter.Render>, p: PathHelpers, r: Entries<string>, i: nat)
    requires r == StaticAdapter.TableOf(OverridePairs(renders, p)) && i < |renders|
    ensures Get(r, renders[i].filename) == Some(OverridePath(renders[i].filename, p))
  {
    LastWithKey(renders, i);
    var last :| i <= last < |renders| && renders[last].filename == renders[i].filename
                && forall j :: last < j < |renders| ==> renders[j].filename != renders[i].filename;
    OverrideLast(renders, p, r, last);
  }

  /** The last render with a given file name sets that name's override. */
  lemma OverrideLast(renders: seq<StaticAdapter.Render>, p: PathHelpers, r: Entries<string>, last: nat)
    requires r == StaticAdapter.TableOf(OverridePairs(renders, p)) && last < |renders|
    requires forall j :: last < j < |renders| ==> renders[j].filename != renders[last].filename
    ensures Get(r, renders[last].filename) == Some(OverridePath(renders[last].filename, p))
  {
    var pairs := OverridePairs(renders, p);
    assert pairs[last] == (renders[last].filename, OverridePath(renders[last].filename, p));
    assert forall j :: last < j < |pairs| ==> pairs[j].0 != pairs[last].0;
  }

  lemma OverridesKeys(renders: seq<StaticAdapter.Render>, p: PathHelpers, r: Entries<string>)
    requires r == StaticAdapter.TableOf(OverridePairs(renders, p))
    ensures forall k :: HasKey(r, k) <==> exists i :: 0 <= i < |renders| && renders[i].filename == k
  {
    var pairs := OverridePairs(renders, p);
    forall k ensures HasKey(r, k) <==> exists i :: 0 <= i < |renders| && renders[i].filename == k {
      if HasKey(r, k) {
        var i :| 0 <= i < |pairs| && pairs[i].0 == k;
        assert renders[i].filename == k;
      }
      if exists i :: 0 <= i < |renders| && renders[i].filename == k {
        var i :| 0 <= i < |renders| && renders[i].filename == k;
        assert pairs[i].0 == k;
      }
    }
  }

  /** Some render with the file name of render `i` comes last. */
  lemma LastWithKey(renders: seq<StaticAdapter.Render>, i: nat)
    requires i < |renders|
    ensures exists last :: i <= last < |renders| && renders[last].filename == renders[i].filename
                           && forall j :: last < j < |renders| ==> renders[j].filename != renders[i].filename
    decreases |renders| - i
  {
    if exists j :: i < j < |renders| && renders[j].filename == renders[i].filename {
      var j :| i < j < |renders| && renders[j].filename == renders[i].filename;
      LastWithKey(renders, j);
    } else {
      assert i <= i < |renders| && renders[i].filename == renders[i].filename
             && forall j :: i < j < |renders| ==> renders[j].filename != renders[i].filename;
    }
  }

  // ---------------------------------------------------------------------------
  // Route matchers: `routeDir.replace(/\[?\[(?:.*?)\]\]?/g, '([^/]+?)')`
  // ---------------------------------------------------------------------------

  /** The characters `.` does not match. */
  predicate LineTerminator(c: char)
  {
    c == '\n' || c == '\r' || c == '\U{2028}' || c == '\U{2029}'
  }

  /** First `]` at or after `j` reachable without crossing a line terminator. */
  function CloseFrom(s: string, j: nat): (r: Option<nat>)
    ensures r.Some? ==> j <= r.value < |s| && s[r.value] == ']'
    ensures r.Some? ==> forall m :: j <= m < r.value ==> s[m] != ']' && !LineTerminator(s[m])
    ensures r.None? ==> forall m :: j <= m < |s| && s[m] == ']' ==> exists n :: j <= n < m && LineTerminator(s[n])
    decreases |s| - j
  {
    if j >= |s| then None
    else if s[j] == ']' then Some(j)
    else if LineTerminator(s[j]) then None
    else CloseFrom(s, j + 1)
  }

  /**
   Length of the matcher match at the start of `s`, if any: an optional `[`,
   a `[`, the shortest run up to the next `]`, and an optional second `]`.
   */
  function MatchLen(s: string): (r: Option<nat>)
    ensures r.Some? ==> 0 < r.value <= |s| && s[0] == '['
  {
    if |s| == 0 || s[0] != '[' then None
    else
      var start := if |s| > 1 && s[1] == '[' then 2 else 1;
      match CloseFrom(s, start)
      case None => None
      case Some(k) => Some(if k + 1 < |s| && s[k + 1] == ']' then k + 2 else k + 1)
  }

  /** The global replacement, left to right, continuing after each match. */
  function ReplaceMatchers(s: string, rep: string): string
    decreases |s|
  {
    if |s| == 0 then ""
    else match MatchLen(s)
      case Some(n) => rep + ReplaceMatchers(s[n..], rep)
      case None => [s[0]] + ReplaceMatchers(s[1..], rep)
  }

  /** Text without `[` passes through unchanged. */
  lemma {:induction false} ReplaceMatchersPlain(a: string, t: string, rep: string)
    requires '[' !in a
    ensures ReplaceMatchers(a + t, rep) == a + ReplaceMatchers(t, rep)
    decreases |a|
  {
    if |a| > 0 {
      assert (a + t)[0] == a[0];
      assert (a + t)[1..] == a[1..] + t;
      ReplaceMatchersPlain(a[1..], t, rep);
    } else {
      assert a + t == t;
    }
  }

  /** A directory without brackets is its own matcher. */
  lemma ReplaceMatchersNoBrackets(s: string, rep: string)
    requires '[' !in s
    ensures ReplaceMatchers(s, rep) == s
  {
    ReplaceMatchersPlain(s, "", rep);
    assert s + "" == s;
  }

  /** The first `]` after `j` is at `k` when nothing before it stops the search. */
  lemma {:induction false} CloseFromAt(t: string, j: nat, k: nat)
    requires j <= k < |t| && t[k] == ']'
    requires forall m :: j <= m < k ==> t[m] != ']' && !LineTerminator(t[m])
    ensures CloseFrom(t, j) == Some(k)
    decreases k - j
  {
    if j < k {
      CloseFromAt(t, j + 1, k);
    }
  }

  /** `[name]` not followed by `]` is one match. */
  lemma MatchLenSegment(name: string, b: string)
    requires ']' !in name && forall m :: 0 <= m < |name| ==> !LineTerminator(name[m])
    requires |b| == 0 || b[0] != ']'
    ensures MatchLen("[" + name + "]" + b) == Some(|name| + 2)
  {
    var t := "[" + name + "]" + b;
    assert forall m :: 1 <= m <= |name| ==> t[m] == name[m - 1];
    assert t[|name| + 1] == ']';
    var start := if |t| > 1 && t[1] == '[' then 2 else 1;
    CloseFromAt(t, start, |name| + 1);
  }

  /** `[[name]]` is one match. */
  lemma MatchLenOptional(name: string, b: string)
    requires ']' !in name && forall m :: 0 <= m < |name| ==> !LineTerminator(name[m])
    ensures MatchLen("[[" + name + "]]" + b) == Some(|name| + 4)
  {
    var t := "[[" + name + "]]" + b;
    assert forall m :: 2 <= m < |name| + 2 ==> t[m] == name[m - 2];
    assert t[|name| + 2] == ']' && t[|name| + 3] == ']';
    CloseFromAt(t, 2, |name| + 2);
  }

  /** A bracket group `[name]` not followed by `]` becomes one replacement. */
  lemma ReplaceMatchersSegment(a: string, name: string, b: string, rep: string)
    requires '[' !in a && ']' !in name && forall m :: 0 <= m < |name| ==> !LineTerminator(name[m])
    requires |b| == 0 || b[0] != ']'
    ensures ReplaceMatchers(a + "[" + name + "]" + b, rep) == a + rep + ReplaceMatchers(b, rep)
  {
    var t := "[" + name + "]" + b;
    assert a + "[" + name + "]" + b == a + t;
    ReplaceMatchersPlain(a, t, rep);
    MatchLenSegment(name, b);
    assert t[|name| + 2..] == b;
  }

  /** An optional bracket group `[[name]]` becomes one replacement. */
  lemma ReplaceMatchersOptional(a: string, name: string, b: string, rep: string)
    requires '[' !in a && ']' !in name && forall m :: 0 <= m < |name| ==> !LineTerminator(name[m])
    ensures ReplaceMatchers(a + "[[" + name + "]]" + b, rep) == a + rep + ReplaceMatchers(b, rep)
  {
    var t := "[[" + name + "]]" + b;
    assert a + "[[" + name + "]]" + b == a + t;
    ReplaceMatchersPlain(a, t, rep);
    MatchLenOptional(name, b);
    assert t[|name| + 4..] == b;
  }

  const MatcherPattern: string := "([^/]+?)"

  /** The endpoint rule: the directory with its matchers as capture groups, and the directory itself. */
  function EndpointRule(dir: string, p: PathHelpers): (r: Rule)
    ensures r.src == Some("^" + p.slash(ReplaceMatchers(dir, MatcherPattern)) + "/?$")
    ensures r.dest == Some(p.slash(dir))
  {
    Rule(Some("^" + p.slash(ReplaceMatchers(dir, MatcherPattern)) + "/?$"), Some(p.slash(dir)), [], None, None)
  }

  /** A server endpoint: its route id, directory, URL pattern and the exports of its http chunk, if any. */
  datatype Endpoint = Endpoint(id: string, dir: string, pathname: string, httpExports: Option<seq<string>>)

  const ImmutableRule: Rule :=
    Rule(Some("/_immutable/.+"), None, [("Cache-Control", "public, immutable, max-age=31536000")], None, None)
  const FilesystemRule: Rule := Rule(None, None, [], None, Some("filesystem"))
  const FallbackRule: Rule := Rule(Some("/(.*)"), Some("/index.html"), [], None, None)

  function EndpointRules(endpoints: seq<Endpoint>, p: PathHelpers): (r: seq<Rule>)
    ensures |r| == |endpoints| && forall i :: 0 <= i < |r| ==> r[i] == EndpointRule(endpoints[i].dir, p)
  {
    seq(|endpoints|, i requires 0 <= i < |endpoints| => EndpointRule(endpoints[i].dir, p))
  }

  /**
   `routes` of `config.json`: the trailing-slash rules for the policy, the
   redirects, the immutable-cache rule, the `filesystem` handle, one rule per
   endpoint (skipped functions included) and the single-page fallback last.
   */
  function Routes(useTrailingSlash: bool, keepRules: seq<Rule>, removeRules: seq<Rule>,
                  redirects: seq<StaticAdapter.StaticRedirect>, endpoints: seq<Endpoint>, p: PathHelpers): (r: seq<Rule>)
    ensures Laid(r, if useTrailingSlash then keepRules else removeRules, RedirectRules(redirects, useTrailingSlash, p),
                 ImmutableRule, FilesystemRule, EndpointRules(endpoints, p), FallbackRule)
  {
    var ts := if useTrailingSlash then keepRules else removeRules;
    var red := RedirectRules(redirects, useTrailingSlash, p);
    var eps := EndpointRules(endpoints, p);
    RuleListParts(ts, red, ImmutableRule, FilesystemRule, eps, FallbackRule);
    ts + red + [ImmutableRule, FilesystemRule] + eps + [FallbackRule]
  }

  /** `r` holds the block `a`, then `b`, then `x` and `y`, then the block `c`, and `z` last. */
  predicate Laid(r: seq<Rule>, a: seq<Rule>, b: seq<Rule>, x: Rule, y: Rule, c: seq<Rule>, z: Rule)
  {
    var n := |a| + |b|;
    && |r| == n + 2 + |c| + 1
    && r[..|a|] == a
    && r[|a|..n] == b
    && r[n] == x && r[n + 1] == y
    && (forall i :: 0 <= i < |c| ==> r[n + 2 + i] == c[i])
    && r[|r| - 1] == z
  }

  /** Where each part of the rule list `a + b + [x, y] + c + [z]` sits. */
  lemma RuleListParts(a: seq<Rule>, b: seq<Rule>, x: Rule, y: Rule, c: seq<Rule>, z: Rule)
    ensures Laid(a + b + [x, y] + c + [z], a, b, x, y, c, z)
  {
    var r := a + b + [x, y] + c + [z];
    assert r[..|a|] == a;
    assert r[|a|..|a| + |b|] == b;
  }

  // ---------------------------------------------------------------------------
  // Functions
  // ---------------------------------------------------------------------------

  const NodeDefaults: Entries<Json> := [
    ("runtime", JStr("nodejs16.x")), ("handler", JStr("index.js")), ("maxDuration", JNum(3)),
    ("launcherType", JStr("Nodejs")), ("shouldAddHelpers", JBool(true)), ("shouldAddSourcemapSupport", JBool(true))
  ]

  const EdgeDefaults: Entries<Json> := [("runtime", JStr("edge")), ("entrypoint", JStr("index.js"))]

  /** The adapter's configuration as far as functions go. */
  datatype Config = Config(edgeAll: bool, envVarsInUse: Option<seq<string>>, functions: Entries<Json>)

  lemma NodeDefaultsUnique()
    ensures UniqueKeys(NodeDefaults)
  {
  }

  /** `{...defaultFunctionsConfig, ...config.functions}`: a configured key wins, the others keep their default. */
  function NodeConfig(functions: Entries<Json>): (r: Entries<Json>)
    ensures UniqueKeys(r)
    ensures forall k :: Get(r, k) == if LastValue(functions, k).Some? then LastValue(functions, k) else Get(NodeDefaults, k)
  {
    NodeDefaultsUnique();
    PutAll(NodeDefaults, functions)
  }

  /** `{...defaultEdgeConfig, envVarsInUse}`; an undefined list is left out of the written JSON. */
  function EdgeConfig(envVarsInUse: Option<seq<string>>): (r: Entries<Json>)
    ensures |r| >= 2 && r[..2] == EdgeDefaults
    ensures envVarsInUse.None? ==> r == EdgeDefaults
    ensures envVarsInUse.Some? ==>
              (|r| == 3 && r[2].0 == "envVarsInUse" && r[2].1.JArr? && |r[2].1.items| == |envVarsInUse.value|
               && forall i :: 0 <= i < |envVarsInUse.value| ==> r[2].1.items[i] == JStr(envVarsInUse.value[i]))
  {
    match envVarsInUse
    case None => EdgeDefaults
    case Some(vs) => EdgeDefaults + [("envVarsInUse", JArr(seq(|vs|, i requires 0 <= i < |vs| => JStr(vs[i]))))]
  }

  /** What is produced for one endpoint function. */
  datatype Function = Function(dir: string, isEdge: bool, code: string, config: Entries<Json>)

  function IsAllowed(httpMethods: set<string>): string -> bool
  {
    (m: string) => m in httpMethods
  }

  /**
   The function of one endpoint: none without an http chunk or when the
   chunk exports no HTTP method; edge iff every function is edge or the chunk
   exports `EDGE`; the code lists the exported methods in export order.
   */
  function EndpointFunction(e: Endpoint, c: Config, httpMethods: set<string>): (r: Option<Function>)
    ensures r.None? <==> e.httpExports.None? || forall m :: m in e.httpExports.value ==> m !in httpMethods
    ensures r.Some? ==> r.value.dir == e.dir + ".func"
    ensures r.Some? ==> r.value.isEdge == (c.edgeAll || "EDGE" in e.httpExports.value)
    ensures r.Some? ==> r.value.config == (if r.value.isEdge then EdgeConfig(c.envVarsInUse) else NodeConfig(c.functions))
    ensures r.Some? ==> var ms := Filter(e.httpExports.value, IsAllowed(httpMethods));
              r.value.code == Code(r.value.isEdge, e.pathname, ms)
  {
    match e.httpExports
    case None => None
    case Some(exports) =>
      var allowed := Filter(exports, IsAllowed(httpMethods));
      NoneAllowed(exports, httpMethods);
      if |allowed| == 0 then None
      else
        var isEdge := c.edgeAll || "EDGE" in exports;
        Some(Function(e.dir + ".func", isEdge, Code(isEdge, e.pathname, allowed), if isEdge then EdgeConfig(c.envVarsInUse) else NodeConfig(c.functions)))
  }

  /** No method is allowed exactly when no export is an HTTP method. */
  lemma NoneAllowed(exports: seq<string>, httpMethods: set<string>)
    ensures |Filter(exports, IsAllowed(httpMethods))| == 0 <==> forall m :: m in exports ==> m !in httpMethods
  {
    var allowed := Filter(exports, IsAllowed(httpMethods));
    if |allowed| > 0 {
      assert allowed[0] in allowed;
    }
    assert forall m :: m in exports && m in httpMethods ==> m in allowed;
  }

  const HttpModule: string := "./+http.js"

  /** The edge or the node handler module for an endpoint. */
  function Code(isEdge: bool, pattern: string, methods: seq<string>): string
  {
    if isEdge then EdgeCode(pattern, HttpModule, methods) else FunctionCode(pattern, HttpModule, methods)
  }

  /** `methods.map((m) => `'${m}'`).join(', ')`. */
  function QuotedList(methods: seq<string>): string
  {
    Join(seq(|methods|, i requires 0 <= i < |methods| => "'" + methods[i] + "'"), ", ")
  }

  function FunctionCode(pattern: string, moduleId: string, methods: seq<string>): string
  {
    Join([
      "import { createEndpointHandler } from '@vessel-js/app/vercel/fn.js';",
      "",
      "export default createEndpointHandler(",
      "  () => new URLPattern({ pathname: '" + pattern + "' }),",
      "  () => import('" + moduleId + "'),",
      "  {",
      "    methods: [" + QuotedList(methods) + "],",
      "  }",
      ");",
      ""
    ], "\n")
  }

  function EdgeCode(pattern: string, moduleId: string, methods: seq<string>): string
  {
    Join([
      "import { createEndpointHandler } from '@vessel-js/app/vercel/edge.js';",
      "",
      "export default createEndpointHandler (",
      "  new URLPattern({ pathname: '" + pattern + "' }),",
      "  () => import('" + moduleId + "'),",
      "  {",
      "    methods: [" + QuotedList(methods) + "],",
      "  }",
      ");",
      ""
    ], "\n")
  }

  /** Reads back a list written by QuotedList: `'a', 'b', …`. */
  function ParseQuotedList(s: string): Option<seq<string>>
    decreases |s|
  {
    if |s| == 0 then Some([])
    else if s[0] != '\'' then None
    else
      var name := BeforeFirst(s[1..], '\'');
      if |name| + 2 > |s| then None
      else
        var rest := s[|name| + 2..];
        if |rest| == 0 then Some([name])
        else if IsPrefix(", ", rest) then
          match ParseQuotedList(rest[2..])
          case Some(ns) => Some([name] + ns)
          case None => None
        else None
  }

  /** The quoted list is the first quoted method, then `, ` and the rest when there is more. */
  lemma QuotedListCons(methods: seq<string>)
    requires |methods| > 0
    ensures QuotedList(methods) == "'" + methods[0] + "'" + (if |methods| == 1 then "" else ", " + QuotedList(methods[1..]))
  {
    var quoted := seq(|methods|, i requires 0 <= i < |methods| => "'" + methods[i] + "'");
    assert quoted[1..] == seq(|methods[1..]|, i requires 0 <= i < |methods[1..]| => "'" + methods[1..][i] + "'");
  }

  /** Parsing one quoted name followed by nothing or by `, ` and more. */
  lemma ParseQuotedListCons(m: string, rest: string)
    requires '\'' !in m && (|rest| == 0 || IsPrefix(", ", rest))
    ensures ParseQuotedList("'" + m + "'" + rest) ==
              if |rest| == 0 then Some([m])
              else match ParseQuotedList(rest[2..]) case Some(ns) => Some([m] + ns) case None => None
  {
    var s := "'" + m + "'" + rest;
    assert s[1..] == m + ("'" + rest);
    BeforeFirstStops(m, "'" + rest, '\'');
    assert s[|m| + 2..] == rest;
  }

  /** The method list in the generated code reads back as the methods, in order. */
  lemma {:induction false} QuotedListRoundTrip(methods: seq<string>)
    requires forall i :: 0 <= i < |methods| ==> '\'' !in methods[i]
    ensures ParseQuotedList(QuotedList(methods)) == Some(methods)
    decreases |methods|
  {
    if |methods| > 0 {
      QuotedListCons(methods);
      if |methods| == 1 {
        ParseQuotedListCons(methods[0], "");
        assert methods == [methods[0]];
      } else {
        var rest := ", " + QuotedList(methods[1..]);
        ParseQuotedListCons(methods[0], rest);
        assert rest[2..] == QuotedList(methods[1..]);
        QuotedListRoundTrip(methods[1..]);
        assert [methods[0]] + methods[1..] == methods;
      }
    }
  }

  /** Reading up to a separator that first occurs after `a` gives `a`. */
  lemma {:induction false} BeforeFirstStops(a: string, b: string, c: char)
    requires c !in a && |b| > 0 && b[0] == c
    ensures BeforeFirst(a + b, c) == a
    decreases |a|
  {
    if |a| > 0 {
      assert (a + b)[1..] == a[1..] + b;
      BeforeFirstStops(a[1..], b, c);
    } else {
      assert a + b == b;
    }
  }
}
