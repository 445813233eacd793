/**
 The tree style of the routes log (`logRoutesTree` in `build/log.ts`):
 which links are shown at each level, how their path segments are
 inserted into a directory tree, how each node is classified, and the
 box-drawing prefixes of the printed lines. Colours are dropped; a node's
 label is its plain text.
 */
module RoutesTree {

  import opened Wrappers
  import opened Strings
  import opened Seqs
  import opened OrderedMap
  import opened BuildLog

  // ---------------------------------------------------------------------
  // Link selection
  // ---------------------------------------------------------------------

  function Pathnames(routes: seq<ServerRoute>): (r: seq<string>)
    ensures |r| == |routes|
    ensures forall i :: 0 <= i < |routes| ==> r[i] == routes[i].pathname
  {
    seq(|routes|, i requires 0 <= i < |routes| => routes[i].pathname)
  }

  /**
   The link lists the tree draws from at each level, concatenated in the
   order they are spread into the set.
   */
  function LinkSources(level: Level, b: BuildData): seq<string>
  {
    match level
    case Error => Keys(b.badLinks)
    case Warn => Keys(b.badLinks) + Keys(b.staticRedirects)
    case Info => Keys(b.badLinks) + Keys(b.staticRedirects) + Keys(b.links)
                 + Pathnames(b.serverPages) + Pathnames(b.serverHttpEndpoints)
  }

  /**
   The links the tree shows: the bad links at `error`; the bad links and
   the redirects at `warn`; at `info` also the rendered links and the
   pathnames of the server pages and endpoints. Each link appears once,
   at its first position.
   */
  function FilteredLinks(level: Level, b: BuildData): (r: seq<string>)
    ensures level == Error ==> r == Keys(b.badLinks)
    ensures level != Error ==> r == Dedup(LinkSources(level, b))
    ensures level != Error ==> NoDuplicates(r) && FirstOccurrenceOrder(r, LinkSources(level, b))
    ensures forall x :: x in r <==>
              HasKey(b.badLinks, x)
              || (level != Error && HasKey(b.staticRedirects, x))
              || (level == Info && (HasKey(b.links, x) || x in Pathnames(b.serverPages)
                                    || x in Pathnames(b.serverHttpEndpoints)))
  {
    var bad := Keys(b.badLinks);
    assert forall x :: x in bad <==> HasKey(b.badLinks, x) by {
      forall x | HasKey(b.badLinks, x) ensures x in bad {
        var i :| 0 <= i < |b.badLinks| && b.badLinks[i].0 == x;
        assert bad[i] == x;
      }
    }
    var redirects := Keys(b.staticRedirects);
    assert forall x :: x in redirects <==> HasKey(b.staticRedirects, x) by {
      forall x | HasKey(b.staticRedirects, x) ensures x in redirects {
        var i :| 0 <= i < |b.staticRedirects| && b.staticRedirects[i].0 == x;
        assert redirects[i] == x;
      }
    }
    var links := Keys(b.links);
    assert forall x :: x in links <==> HasKey(b.links, x) by {
      forall x | HasKey(b.links, x) ensures x in links {
        var i :| 0 <= i < |b.links| && b.links[i].0 == x;
        assert links[i] == x;
      }
    }
    match level
    case Error => bad
    case Warn => Dedup(bad + redirects)
    case Info => Dedup(bad + redirects + links + Pathnames(b.serverPages) + Pathnames(b.serverHttpEndpoints))
  }

  // ---------------------------------------------------------------------
  // The tree and its insertion
  // ---------------------------------------------------------------------

  datatype RedirectInfo = RedirectInfo(path: string, status: int)

  /** A tree node. The flags accumulate over every link that reaches the node. */
  datatype Dir = Dir(
    name: string,
    children: seq<Dir>,
    info: Option<string>,
    route: bool,
    badLink: bool,
    icon: Option<string>,
    isStatic: bool,
    redirect: Option<RedirectInfo>)

  function NewDir(name: string): (d: Dir)
  {
    Dir(name, [], None, false, false, None, false, None)
  }

  const PageIcon: string := "\U{1F4C4}"
  const HttpInfo: string := "+http"

  function Names(cs: seq<Dir>): (r: seq<string>)
    ensures |r| == |cs|
    ensures forall i :: 0 <= i < |cs| ==> r[i] == cs[i].name
  {
    seq(|cs|, i requires 0 <= i < |cs| => cs[i].name)
  }

  /** Sibling names are unique at every level of the tree. */
  predicate UniqueNames(t: Dir)
  {
    NoDuplicates(Names(t.children))
    && forall i :: 0 <= i < |t.children| ==> UniqueNames(t.children[i])
  }

  /** `path.find((dir) => dir.name === name)`: the first child with the name. */
  function FindChild(cs: seq<Dir>, name: string): (r: Option<nat>)
    ensures r.Some? ==> r.value < |cs| && cs[r.value].name == name
    ensures r.Some? ==> forall j :: 0 <= j < r.value ==> cs[j].name != name
    ensures r.None? ==> forall j :: 0 <= j < |cs| ==> cs[j].name != name
  {
    if |cs| == 0 then None
    else if cs[0].name == name then Some(0)
    else
      var rest := FindChild(cs[1..], name);
      if rest.Some? then Some(rest.value + 1) else None
  }

  /** What a link makes of the node it reaches. */
  datatype Mark = BadLinkMark | RedirectMark(path: string, status: int) | RouteMark(isStatic: bool, http: bool)

  /**
   Classification of a link: a bad link first, then a redirect (whose
   target loses its first and last characters), then a route, static when
   the link was rendered and `+http` when it is a server endpoint instead.
   */
  function Classify(link: string, b: BuildData): (m: Mark)
    ensures m.BadLinkMark? <==> HasKey(b.badLinks, link)
    ensures m.RedirectMark? <==> !HasKey(b.badLinks, link) && HasKey(b.staticRedirects, link)
    ensures m.RedirectMark? ==> exists r :: Get(b.staticRedirects, link) == Some(r)
                                 && m.path == Slice(r.to, 1, -1) && m.status == r.status
    ensures m.RouteMark? ==> (m.isStatic <==> HasKey(b.links, link))
    ensures m.RouteMark? ==> (m.http <==> !HasKey(b.links, link) && link in Pathnames(b.serverHttpEndpoints))
  {
    if HasKey(b.badLinks, link) then BadLinkMark
    else match Get(b.staticRedirects, link)
      case Some(r) => RedirectMark(Slice(r.to, 1, -1), r.status)
      case None =>
        var isStatic := HasKey(b.links, link);
        RouteMark(isStatic, !isStatic && link in Pathnames(b.serverHttpEndpoints))
  }

  /** The redirect target shown is `to` without its enclosing slashes. */
  lemma RedirectPath(link: string, b: BuildData)
    requires Classify(link, b).RedirectMark?
    ensures var to := Get(b.staticRedirects, link).value.to;
            (|to| >= 2 ==> Classify(link, b).path == to[1..|to| - 1])
            && (|to| < 2 ==> Classify(link, b).path == "")
  {
    SliceInner(Get(b.staticRedirects, link).value.to);
  }

  /** Applies a mark to a node, keeping what earlier links set. */
  function Apply(d: Dir, m: Mark): (r: Dir)
    ensures r.name == d.name && r.children == d.children
    ensures r.badLink == (d.badLink || m.BadLinkMark?)
    ensures r.route == (d.route || m.RouteMark?)
    ensures r.redirect == (if m.RedirectMark? then Some(RedirectInfo(m.path, m.status)) else d.redirect)
    ensures r.isStatic == (d.isStatic || (m.RouteMark? && m.isStatic))
    ensures r.icon == (if m.RouteMark? && m.isStatic then Some(PageIcon) else d.icon)
    ensures r.info == (if m.RouteMark? && !m.isStatic && m.http then Some(HttpInfo) else d.info)
  {
    match m
    case BadLinkMark => d.(badLink := true)
    case RedirectMark(path, status) => d.(redirect := Some(RedirectInfo(path, status)))
    case RouteMark(isStatic, http) =>
      var d1 := d.(route := true);
      if isStatic then d1.(icon := Some(PageIcon), isStatic := true)
      else if http then d1.(info := Some(HttpInfo))
      else d1
  }

  /**
   Walks `path` from `t`, reusing the first child with each name and
   appending a new one when there is none, and marks the node reached.
   */
  function Insert(t: Dir, path: seq<string>, m: Mark): (r: Dir)
    ensures r.name == t.name
    decreases |path|
  {
    if |path| == 0 then Apply(t, m)
    else
      match FindChild(t.children, path[0])
      case Some(i) => t.(children := t.children[i := Insert(t.children[i], path[1..], m)])
      case None => t.(children := t.children + [Insert(NewDir(path[0]), path[1..], m)])
  }

  /**
   An insertion keeps the existing children's names in their order and
   adds at most the first segment's name, at the end.
   */
  lemma InsertNames(t: Dir, path: seq<string>, m: Mark)
    ensures var r := Insert(t, path, m);
            |t.children| <= |r.children| <= |t.children| + 1
            && Names(r.children)[..|t.children|] == Names(t.children)
            && (|path| == 0 ==> r.children == t.children)
            && (|path| > 0 ==> forall x :: x in Names(r.children) <==> x in Names(t.children) || x == path[0])
  {
    if |path| > 0 {
      match FindChild(t.children, path[0])
      case Some(i) => InsertNamesExisting(t, path, m, i);
      case None => InsertNamesFresh(t, path, m);
    }
  }

  lemma InsertNamesExisting(t: Dir, path: seq<string>, m: Mark, i: nat)
    requires |path| > 0 && FindChild(t.children, path[0]) == Some(i)
    ensures Names(Insert(t, path, m).children) == Names(t.children)
    ensures path[0] in Names(t.children)
  {
    InsertExisting(t, path, m, i);
    assert Names(t.children)[i] == path[0];
  }

  lemma InsertNamesFresh(t: Dir, path: seq<string>, m: Mark)
    requires |path| > 0 && FindChild(t.children, path[0]).None?
    ensures Names(Insert(t, path, m).children) == Names(t.children) + [path[0]]
  {
    InsertFresh(t, path, m);
  }

  /** An insertion keeps sibling names unique at every level. */
  lemma {:induction false} InsertKeepsUnique(t: Dir, path: seq<string>, m: Mark)
    requires UniqueNames(t)
    ensures UniqueNames(Insert(t, path, m))
    decreases |path|, 1
  {
    if |path| > 0 {
      match FindChild(t.children, path[0])
      case Some(i) => InsertKeepsUniqueExisting(t, path, m, i);
      case None => InsertKeepsUniqueFresh(t, path, m);
    } else {
      assert Insert(t, path, m).children == t.children;
    }
  }

  lemma {:induction false} InsertKeepsUniqueExisting(t: Dir, path: seq<string>, m: Mark, i: nat)
    requires UniqueNames(t)
    requires |path| > 0 && FindChild(t.children, path[0]) == Some(i)
    ensures UniqueNames(Insert(t, path, m))
    decreases |path|, 0
  {
    var r := Insert(t, path, m);
    InsertNamesExisting(t, path, m, i);
    InsertExisting(t, path, m, i);
    InsertKeepsUnique(t.children[i], path[1..], m);
    forall j | 0 <= j < |r.children| ensures UniqueNames(r.children[j]) {
      if j != i {
        assert r.children[j] == t.children[j];
      }
    }
  }

  lemma {:induction false} InsertKeepsUniqueFresh(t: Dir, path: seq<string>, m: Mark)
    requires UniqueNames(t)
    requires |path| > 0 && FindChild(t.children, path[0]).None?
    ensures UniqueNames(Insert(t, path, m))
    decreases |path|, 0
  {
    var r := Insert(t, path, m);
    InsertNamesFresh(t, path, m);
    InsertFresh(t, path, m);
    assert UniqueNames(NewDir(path[0]));
    InsertKeepsUnique(NewDir(path[0]), path[1..], m);
    assert path[0] !in Names(t.children);
    forall j | 0 <= j < |r.children| ensures UniqueNames(r.children[j]) {
      if j < |t.children| {
        assert r.children[j] == t.children[j];
      }
    }
  }

  /** The node reached by following `path` by name, if any. */
  function Lookup(t: Dir, path: seq<string>): (r: Option<Dir>)
    decreases |path|
  {
    if |path| == 0 then Some(t)
    else
      match FindChild(t.children, path[0])
      case Some(i) => Lookup(t.children[i], path[1..])
      case None => None
  }

  /** The node a path reaches before an insertion, or the fresh node the insertion creates for it. */
  function Before(t: Dir, path: seq<string>): Dir
  {
    match Lookup(t, path)
    case Some(d) => d
    case None => NewDir(path[|path| - 1])
  }

  /** Insertion through an existing child rebuilds only that child. */
  lemma InsertExisting(t: Dir, path: seq<string>, m: Mark, i: nat)
    requires |path| > 0 && FindChild(t.children, path[0]) == Some(i)
    ensures Insert(t, path, m) == t.(children := t.children[i := Insert(t.children[i], path[1..], m)])
  {
  }

  /** Insertion under a missing name appends one new child. */
  lemma InsertFresh(t: Dir, path: seq<string>, m: Mark)
    requires |path| > 0 && FindChild(t.children, path[0]).None?
    ensures Insert(t, path, m) == t.(children := t.children + [Insert(NewDir(path[0]), path[1..], m)])
  {
  }

  lemma LookupStep(t: Dir, path: seq<string>, i: nat)
    requires |path| > 0 && FindChild(t.children, path[0]) == Some(i)
    ensures Lookup(t, path) == Lookup(t.children[i], path[1..])
  {
  }

  /** After an insertion, the path leads to the node it reached (or created), with the mark applied. */
  lemma {:induction false} InsertThenLookup(t: Dir, path: seq<string>, m: Mark)
    ensures Lookup(Insert(t, path, m), path) == Some(Apply(Before(t, path), m))
    decreases |path|
  {
    if |path| > 0 {
      match FindChild(t.children, path[0])
      case Some(i) => InsertThenLookupExisting(t, path, m, i);
      case None => InsertThenLookupFresh(t, path, m);
    }
  }

  lemma {:induction false} InsertThenLookupExisting(t: Dir, path: seq<string>, m: Mark, i: nat)
    requires |path| > 0 && FindChild(t.children, path[0]) == Some(i)
    ensures Lookup(Insert(t, path, m), path) == Some(Apply(Before(t, path), m))
    decreases |path|, 0
  {
    var r := Insert(t, path, m);
    InsertExisting(t, path, m, i);
    InsertThenLookup(t.children[i], path[1..], m);
    assert forall j :: 0 <= j < |t.children| ==> r.children[j].name == t.children[j].name;
    FindChildExtended(t.children, r.children, path[0], i);
    LookupStep(r, path, i);
    LookupStep(t, path, i);
    assert r.children[i] == Insert(t.children[i], path[1..], m);
    assert Before(t, path) == Before(t.children[i], path[1..]) by {
      if |path| > 1 {
        assert path[1..][|path[1..]| - 1] == path[|path| - 1];
      }
    }
  }

  lemma {:induction false} InsertThenLookupFresh(t: Dir, path: seq<string>, m: Mark)
    requires |path| > 0 && FindChild(t.children, path[0]).None?
    ensures Lookup(Insert(t, path, m), path) == Some(Apply(Before(t, path), m))
    decreases |path|, 0
  {
    var r := Insert(t, path, m);
    var c := NewDir(path[0]);
    InsertFresh(t, path, m);
    InsertThenLookup(c, path[1..], m);
    assert Names(r.children) == Names(t.children) + [path[0]];
    FindChildAppended(t.children, r.children, path[0]);
    LookupStep(r, path, |t.children|);
    assert Lookup(t, path) == None;
    assert Before(t, path) == Before(c, path[1..]) by {
      if |path| > 1 {
        assert FindChild(c.children, path[1]) == None;
        assert path[1..][|path[1..]| - 1] == path[|path| - 1];
      }
    }
  }

  /** A child found in `a` is found at the same position once children are appended. */
  lemma {:induction false} FindChildExtended(a: seq<Dir>, b: seq<Dir>, name: string, i: nat)
    requires FindChild(a, name) == Some(i)
    requires |a| <= |b| && forall j :: 0 <= j < |a| ==> b[j].name == a[j].name
    ensures FindChild(b, name) == Some(i)
  {
    if a[0].name != name {
      FindChildExtended(a[1..], b[1..], name, i - 1);
    }
  }

  /** A name missing from `a` is found at the appended position. */
  lemma FindChildAppended(a: seq<Dir>, b: seq<Dir>, name: string)
    requires name !in Names(a)
    requires Names(b) == Names(a) + [name]
    ensures FindChild(b, name) == Some(|a|)
  {
    assert forall j :: 0 <= j < |a| ==> b[j].name == Names(a)[j];
    assert b[|a|].name == name;
  }

  /** Inserting a path never removes a node another path already reaches. */
  lemma {:induction false} InsertKeepsLookup(t: Dir, p: seq<string>, m: Mark, q: seq<string>)
    requires Lookup(t, q).Some?
    ensures Lookup(Insert(t, p, m), q).Some?
    decreases |q|, 1
  {
    if |q| > 0 && |p| > 0 {
      match FindChild(t.children, p[0])
      case Some(k) => InsertKeepsLookupExisting(t, p, m, q, k);
      case None => InsertKeepsLookupFresh(t, p, m, q);
    } else if |q| > 0 {
      var i := FindChild(t.children, q[0]).value;
      assert Insert(t, p, m).children == t.children;
      LookupStep(t, q, i);
      LookupStep(Insert(t, p, m), q, i);
    }
  }

  lemma {:induction false} InsertKeepsLookupExisting(t: Dir, p: seq<string>, m: Mark, q: seq<string>, k: nat)
    requires Lookup(t, q).Some? && |q| > 0
    requires |p| > 0 && FindChild(t.children, p[0]) == Some(k)
    ensures Lookup(Insert(t, p, m), q).Some?
    decreases |q|, 0
  {
    var i := FindChild(t.children, q[0]).value;
    var r := Insert(t, p, m);
    LookupStep(t, q, i);
    InsertExisting(t, p, m, k);
    assert forall j :: 0 <= j < |t.children| ==> r.children[j].name == t.children[j].name;
    FindChildExtended(t.children, r.children, q[0], i);
    LookupStep(r, q, i);
    if k == i {
      InsertKeepsLookup(t.children[i], p[1..], m, q[1..]);
    } else {
      assert r.children[i] == t.children[i];
    }
  }

  lemma {:induction false} InsertKeepsLookupFresh(t: Dir, p: seq<string>, m: Mark, q: seq<string>)
    requires Lookup(t, q).Some? && |q| > 0
    requires |p| > 0 && FindChild(t.children, p[0]).None?
    ensures Lookup(Insert(t, p, m), q).Some?
  {
    var i := FindChild(t.children, q[0]).value;
    var r := Insert(t, p, m);
    LookupStep(t, q, i);
    InsertFresh(t, p, m);
    assert forall j :: 0 <= j < |t.children| ==> r.children[j] == t.children[j];
    FindChildExtended(t.children, r.children, q[0], i);
    LookupStep(r, q, i);
  }

  /** The path a link is inserted under: its segments without the last one. */
  function WalkPath(link: string, noslash: string -> string): seq<string>
  {
    var segments := Split(noslash(link), '/');
    segments[..|segments| - 1]
  }

  /** The tree after inserting every link in order, starting from the root `.`. */
  function BuildTree(links: seq<string>, b: BuildData, noslash: string -> string): (t: Dir)
    ensures t.name == "."
    ensures UniqueNames(t)
  {
    if |links| == 0 then NewDir(".")
    else
      var last := links[|links| - 1];
      var prev := BuildTree(links[..|links| - 1], b, noslash);
      InsertKeepsUnique(prev, WalkPath(last, noslash), Classify(last, b));
      Insert(prev, WalkPath(last, noslash), Classify(last, b))
  }

  lemma BuildTreeStep(links: seq<string>, b: BuildData, noslash: string -> string)
    requires |links| > 0
    ensures var n := |links| - 1;
            BuildTree(links, b, noslash)
            == Insert(BuildTree(links[..n], b, noslash), WalkPath(links[n], noslash), Classify(links[n], b))
  {
  }

  /** Every selected link has a node in the finished tree. */
  lemma {:induction false} EveryLinkHasNode(links: seq<string>, b: BuildData, noslash: string -> string)
    ensures forall k :: 0 <= k < |links| ==> Lookup(BuildTree(links, b, noslash), WalkPath(links[k], noslash)).Some?
  {
    if |links| > 0 {
      var n := |links| - 1;
      var prev := BuildTree(links[..n], b, noslash);
      var p, m := WalkPath(links[n], noslash), Classify(links[n], b);
      var t := BuildTree(links, b, noslash);
      BuildTreeStep(links, b, noslash);
      assert t == Insert(prev, p, m);
      EveryLinkHasNode(links[..n], b, noslash);
      forall k | 0 <= k < |links|
        ensures Lookup(t, WalkPath(links[k], noslash)).Some?
      {
        if k == n {
          InsertThenLookup(prev, p, m);
        } else {
          assert links[..n][k] == links[k];
          InsertKeepsLookup(prev, p, m, WalkPath(links[k], noslash));
        }
      }
    }
  }

  /** `logRoutesTree`'s tree: the selected links inserted in order. */
  function RoutesTreeOf(level: Level, b: BuildData, noslash: string -> string): (t: Dir)
    ensures UniqueNames(t)
    ensures forall x :: x in FilteredLinks(level, b) ==> Lookup(t, WalkPath(x, noslash)).Some?
  {
    var links := FilteredLinks(level, b);
    EveryLinkHasNode(links, b, noslash);
    assert forall x :: x in links ==> exists k :: 0 <= k < |links| && links[k] == x;
    BuildTree(links, b, noslash)
  }

  // ---------------------------------------------------------------------
  // Printing
  // ---------------------------------------------------------------------

  const Branch: string := "\U{251C}\U{2500}\U{2500} "
  const LastBranch: string := "\U{2514}\U{2500}\U{2500} "
  const Indent: string := "    "
  const Vertical: string := "\U{2502}   "

  /** Child `i` is drawn as the last branch iff it is the last sibling and has no children. */
  predicate IsLast(t: Dir, i: nat)
    requires i < |t.children|
  {
    i == |t.children| - 1 && |t.children[i].children| == 0
  }

  /** A node's plain label: the icon, then the name with its 404, redirect or info suffix. */
  function Label(d: Dir): string
  {
    var name :=
      if d.badLink then d.name + " (404)"
      else if d.redirect.Some? then
        d.name + " -> " + d.redirect.value.path + " (" + IntToString(d.redirect.value.status) + ")"
      else d.name + d.info.GetOr("");
    d.icon.GetOr("") + name
  }

  /** The prefix a child's own children inherit beyond the parent's. */
  function Extension(depth: int, isLast: bool): string
  {
    if depth >= 1 then (if isLast then Indent else Vertical) else ""
  }

  function ChildLine(t: Dir, i: nat, pre: string): string
    requires i < |t.children|
  {
    pre + (if IsLast(t, i) then LastBranch else Branch) + Label(t.children[i])
  }

  /** `print`: the lines for children `i..` of `t`, each followed by its own subtree. */
  function Lines(t: Dir, i: nat, depth: int, pre: string): seq<string>
    decreases t, |t.children| - i
  {
    if i >= |t.children| then []
    else
      var d := t.children[i];
      [ChildLine(t, i, pre)]
      + Lines(d, 0, depth + 1, pre + Extension(depth, IsLast(t, i)))
      + Lines(t, i + 1, depth, pre)
  }

  /** The number of nodes below children `i..` of `t`, those children included. */
  function Count(t: Dir, i: nat): nat
    decreases t, |t.children| - i
  {
    if i >= |t.children| then 0 else 1 + Count(t.children[i], 0) + Count(t, i + 1)
  }

  /** One line per node. */
  lemma {:induction false} LinesCount(t: Dir, i: nat, depth: int, pre: string)
    ensures |Lines(t, i, depth, pre)| == Count(t, i)
    decreases t, |t.children| - i
  {
    if i < |t.children| {
      LinesCount(t.children[i], 0, depth + 1, pre + Extension(depth, IsLast(t, i)));
      LinesCount(t, i + 1, depth, pre);
    }
  }

  /** Every line carries the prefix its parent was given. */
  lemma {:induction false} LinesPrefix(t: Dir, i: nat, depth: int, pre: string)
    ensures forall k :: 0 <= k < |Lines(t, i, depth, pre)| ==> IsPrefix(pre, Lines(t, i, depth, pre)[k])
    decreases t, |t.children| - i
  {
    if i < |t.children| {
      var ext := pre + Extension(depth, IsLast(t, i));
      LinesPrefix(t.children[i], 0, depth + 1, ext);
      LinesPrefix(t, i + 1, depth, pre);
      var sub := Lines(t.children[i], 0, depth + 1, ext);
      forall k | 0 <= k < |sub| ensures IsPrefix(pre, sub[k]) {
        assert IsPrefix(ext, sub[k]);
        assert sub[k][..|pre|] == ext[..|pre|];
      }
    }
  }

  /** The lines from child `j` on end the lines from child `i <= j` on. */
  lemma {:induction false} LinesSuffix(t: Dir, i: nat, j: nat, depth: int, pre: string)
    requires i <= j
    ensures |Lines(t, j, depth, pre)| <= |Lines(t, i, depth, pre)|
    ensures Lines(t, i, depth, pre)[|Lines(t, i, depth, pre)| - |Lines(t, j, depth, pre)|..] == Lines(t, j, depth, pre)
    decreases j - i
  {
    if i < j && i < |t.children| {
      LinesSuffix(t, i + 1, j, depth, pre);
    }
  }

  /**
   In the printed lines of `t`'s children, child `i`'s line sits after the
   lines of the earlier children's subtrees, and it starts with the last
   branch symbol exactly when the child is the last sibling and has no
   children; otherwise with the ordinary branch symbol.
   */
  lemma ChildLineAt(t: Dir, i: nat, depth: int, pre: string)
    requires i < |t.children|
    ensures var lines := Lines(t, 0, depth, pre);
            |lines| == Count(t, 0) && 0 < Count(t, i) <= |lines|
            && lines[|lines| - Count(t, i)] == ChildLine(t, i, pre)
    ensures IsPrefix(pre + LastBranch, ChildLine(t, i, pre)) <==> IsLast(t, i)
    ensures IsPrefix(pre + Branch, ChildLine(t, i, pre)) <==> !IsLast(t, i)
  {
    LinesSuffix(t, 0, i, depth, pre);
    LinesCount(t, 0, depth, pre);
    LinesCount(t, i, depth, pre);
    var line := ChildLine(t, i, pre);
    assert line[|pre|] == (if IsLast(t, i) then LastBranch[0] else Branch[0]);
    assert LastBranch[0] != Branch[0];
  }

  /**
   The printed tree: nothing when the root has no children; otherwise, at
   `info`, the `ROUTES` heading, then the root line (with the page icon
   when `/` was rendered) and the lines of the root's children at depth 1.
   */
  function PrintTree(level: Level, b: BuildData, t: Dir): (r: seq<string>)
    ensures |r| == 0 <==> |t.children| == 0
    ensures |t.children| > 0 ==> |r| == (if level == Info then 2 else 1) + Count(t, 0)
    ensures |t.children| > 0 ==>
      var h := if level == Info then 1 else 0;
      && r[..h] == (if level == Info then ["\nROUTES "] else [])
      && r[h] == (if HasKey(b.links, "/") then "\n" + PageIcon + "." else ".")
      && r[h + 1..] == Lines(t, 0, 1, "")
  {
    if |t.children| == 0 then []
    else
      LinesCount(t, 0, 1, "");
      (if level == Info then ["\nROUTES "] else [])
      + [if HasKey(b.links, "/") then "\n" + PageIcon + "." else "."]
      + Lines(t, 0, 1, "")
  }

  /**
   `logRoutesTree`: the lines printed for the selected links. Something is
   printed exactly when some selected link has a directory segment below
   the root, and then the root line follows the optional heading.
   */
  function LogRoutesTree(level: Level, b: BuildData, noslash: string -> string): (r: seq<string>)
    ensures |r| > 0 <==> exists x :: x in FilteredLinks(level, b) && |WalkPath(x, noslash)| > 0
    ensures |r| > 0 ==>
      var h := if level == Info then 1 else 0;
      h < |r| && r[h] == (if HasKey(b.links, "/") then "\n" + PageIcon + "." else ".")
  {
    var t := RoutesTreeOf(level, b, noslash);
    TreeHasChildren(level, b, noslash);
    var r := PrintTree(level, b, t);
    assert |r| > 0 <==> |t.children| > 0;
    r
  }

  /** The root gains a child exactly when some selected link has a directory segment. */
  lemma TreeHasChildren(level: Level, b: BuildData, noslash: string -> string)
    ensures |RoutesTreeOf(level, b, noslash).children| > 0
            <==> exists x :: x in FilteredLinks(level, b) && |WalkPath(x, noslash)| > 0
  {
    var links := FilteredLinks(level, b);
    var t := RoutesTreeOf(level, b, noslash);
    if x :| x in links && |WalkPath(x, noslash)| > 0 {
      var path := WalkPath(x, noslash);
      assert Lookup(t, path).Some?;
      assert FindChild(t.children, path[0]).Some?;
    } else {
      assert t == BuildTree(links, b, noslash);
      BuildTreeChildless(links, b, noslash);
    }
  }

  /** Links that name no directory below the root leave the root without children. */
  lemma {:induction false} BuildTreeChildless(links: seq<string>, b: BuildData, noslash: string -> string)
    requires forall k :: 0 <= k < |links| ==> |WalkPath(links[k], noslash)| == 0
    ensures |BuildTree(links, b, noslash).children| == 0
  {
    if |links| > 0 {
      var n := |links| - 1;
      BuildTreeChildless(links[..n], b, noslash);
      BuildTreeStep(links, b, noslash);
    }
  }
}
