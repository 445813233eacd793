/**
 The build's route reports (`build/log.ts`): the bad-link summary and the
 list style of the routes log. The model computes the text lines the
 report consists of; writing them to the console and the terminal colours
 wrapped around some words are left to the caller.
 */
module BuildLog {

  import opened Wrappers
  import opened Strings
  import opened Seqs
  import opened OrderedMap

  /** The configured route-log level. */
  datatype Level = Info | Warn | Error

  /** Why a crawled link failed, and the root path of its route's page when the route has one. */
  datatype BadLink = BadLink(reason: string, pageRoot: Option<string>)

  datatype Redirect = Redirect(to: string, status: int)

  /** A server-rendered route: its `dir.route` and the pathname of its page or http file. */
  datatype ServerRoute = ServerRoute(dirRoute: string, pathname: string)

  /**
   The parts of the build data the reports read. `links` maps each
   statically rendered link to its page's pattern pathname.
   */
  datatype BuildData = BuildData(
    links: Entries<string>,
    badLinks: Entries<BadLink>,
    staticRedirects: Entries<Redirect>,
    serverPages: seq<ServerRoute>,
    serverHttpEndpoints: seq<ServerRoute>)

  // ---------------------------------------------------------------------
  // logBadLinks
  // ---------------------------------------------------------------------

  /** The line prefixes of a bad link's block: its pathname, the reason and the page location. */
  const EntryPrefix: string := "- "
  const ReasonPrefix: string := "  - Reason: "
  const LocationPrefix: string := "  - Location: "

  predicate IsEntryLine(line: string)
  {
    IsPrefix(EntryPrefix, line)
  }

  predicate IsReasonLine(line: string)
  {
    IsPrefix(ReasonPrefix, line)
  }

  predicate IsLocationLine(line: string)
  {
    IsPrefix(LocationPrefix, line)
  }

  /** The lines for one bad link: its pathname, the reason, and the page location when known. */
  function BadLinkLines(pathname: string, b: BadLink): seq<string>
  {
    [EntryPrefix + pathname, ReasonPrefix + b.reason]
    + (if b.pageRoot.Some? then [LocationPrefix + b.pageRoot.value] else [])
  }

  predicate HasPage(e: (string, BadLink))
  {
    e.1.pageRoot.Some?
  }

  /** The blocks of all bad links, in map order. */
  function BadLinkBlocks(badLinks: Entries<BadLink>): (r: seq<string>)
    ensures |r| == 2 * |badLinks| + CountIf(badLinks, HasPage)
  {
    if |badLinks| == 0 then []
    else BadLinkLines(badLinks[0].0, badLinks[0].1) + BadLinkBlocks(badLinks[1..])
  }

  /** Each prefix of a block line excludes the other two kinds. */
  lemma BadLinkLineKinds(pathname: string, b: BadLink)
    ensures var ls := BadLinkLines(pathname, b);
      IsEntryLine(ls[0]) && !IsReasonLine(ls[0]) && !IsLocationLine(ls[0])
      && IsReasonLine(ls[1]) && !IsEntryLine(ls[1]) && !IsLocationLine(ls[1])
      && (b.pageRoot.Some? ==> IsLocationLine(ls[2]) && !IsEntryLine(ls[2]) && !IsReasonLine(ls[2]))
  {
    var ls := BadLinkLines(pathname, b);
    assert ls[0][..2] == EntryPrefix;
    assert ls[0][0] == '-' && ls[1][0] == ' ' && ls[1][4] == 'R';
    assert ls[1][..|ReasonPrefix|] == ReasonPrefix;
    if b.pageRoot.Some? {
      assert ls[2][..|LocationPrefix|] == LocationPrefix;
      assert ls[2][0] == ' ' && ls[2][4] == 'L';
    }
  }

  /** Filtering one block by line kind. */
  lemma BadLinkLinesFilter(pathname: string, b: BadLink)
    ensures Filter(BadLinkLines(pathname, b), IsEntryLine) == [EntryPrefix + pathname]
    ensures Filter(BadLinkLines(pathname, b), IsReasonLine) == [ReasonPrefix + b.reason]
    ensures Filter(BadLinkLines(pathname, b), IsLocationLine)
            == if b.pageRoot.Some? then [LocationPrefix + b.pageRoot.value] else []
  {
    var x, y := EntryPrefix + pathname, ReasonPrefix + b.reason;
    var d: seq<string> := if b.pageRoot.Some? then [LocationPrefix + b.pageRoot.value] else [];
    assert BadLinkLines(pathname, b) == [x, y] + d;
    BadLinkLineKinds(pathname, b);
    FilterTwoThen(x, y, d, IsEntryLine);
    FilterTwoThen(x, y, d, IsReasonLine);
    FilterTwoThen(x, y, d, IsLocationLine);
    if b.pageRoot.Some? {
      FilterOne(d[0], IsEntryLine);
      FilterOne(d[0], IsReasonLine);
      FilterOne(d[0], IsLocationLine);
    }
  }

  /** The blocks of concatenated maps are the concatenated blocks. */
  lemma {:induction false} BadLinkBlocksAppend(a: Entries<BadLink>, c: Entries<BadLink>)
    ensures BadLinkBlocks(a + c) == BadLinkBlocks(a) + BadLinkBlocks(c)
  {
    if |a| == 0 {
      assert a + c == c;
    } else {
      assert (a + c)[1..] == a[1..] + c;
      BadLinkBlocksAppend(a[1..], c);
    }
  }

  /** A single link's block is its pathname line, its reason line and, when its route has a page, the location line. */
  lemma BadLinkBlocksSingle(pathname: string, b: BadLink)
    ensures BadLinkBlocks([(pathname, b)]) == BadLinkLines(pathname, b)
    ensures BadLinkBlocks([(pathname, b)])[..2] == ["- " + pathname, "  - Reason: " + b.reason]
    ensures |BadLinkBlocks([(pathname, b)])| == 3 <==> b.pageRoot.Some?
    ensures b.pageRoot.Some? ==> BadLinkBlocks([(pathname, b)])[2] == "  - Location: " + b.pageRoot.value
  {
    var single := [(pathname, b)];
    assert single[1..] == [];
    assert BadLinkBlocks(single) == BadLinkLines(pathname, b) + [];
  }

  /** Prefixes every line. */
  function Prefixed(prefix: string, ss: seq<string>): (r: seq<string>)
    ensures |r| == |ss|
  {
    seq(|ss|, i requires 0 <= i < |ss| => prefix + ss[i])
  }

  lemma PrefixedCons(prefix: string, x: string, ss: seq<string>)
    ensures Prefixed(prefix, [x] + ss) == [prefix + x] + Prefixed(prefix, ss)
  {
  }

  function Reasons(badLinks: Entries<BadLink>): (r: seq<string>)
    ensures |r| == |badLinks|
    ensures forall i :: 0 <= i < |badLinks| ==> r[i] == badLinks[i].1.reason
  {
    seq(|badLinks|, i requires 0 <= i < |badLinks| => badLinks[i].1.reason)
  }

  /** The page roots of the links whose route has a page, in map order. */
  function PageRoots(badLinks: Entries<BadLink>): (r: seq<string>)
    ensures |r| == CountIf(badLinks, HasPage)
  {
    var withPage := Filter(badLinks, HasPage);
    seq(|withPage|, i requires 0 <= i < |withPage| => withPage[i].1.pageRoot.value)
  }

  lemma ReasonsCons(badLinks: Entries<BadLink>)
    requires |badLinks| > 0
    ensures Reasons(badLinks) == [badLinks[0].1.reason] + Reasons(badLinks[1..])
  {
  }

  lemma PageRootsCons(badLinks: Entries<BadLink>)
    requires |badLinks| > 0
    ensures PageRoots(badLinks) == (if HasPage(badLinks[0]) then [badLinks[0].1.pageRoot.value] else [])
                                   + PageRoots(badLinks[1..])
  {
    var withPage := Filter(badLinks[1..], HasPage);
    if HasPage(badLinks[0]) {
      assert Filter(badLinks, HasPage) == [badLinks[0]] + withPage;
    } else {
      assert Filter(badLinks, HasPage) == withPage;
    }
  }

  /** The pathname lines of the blocks are the map's keys, in map order. */
  lemma {:induction false} BadLinkPathnameLines(badLinks: Entries<BadLink>)
    ensures Filter(BadLinkBlocks(badLinks), IsEntryLine) == Prefixed(EntryPrefix, Keys(badLinks))
  {
    if |badLinks| > 0 {
      var (k, b) := badLinks[0];
      BadLinkPathnameLines(badLinks[1..]);
      FilterAppend(BadLinkLines(k, b), BadLinkBlocks(badLinks[1..]), IsEntryLine);
      BadLinkLinesFilter(k, b);
      PrefixedCons(EntryPrefix, k, Keys(badLinks[1..]));
    }
  }

  /** The reason lines of the blocks are the links' reasons, in map order. */
  lemma {:induction false} BadLinkReasonLines(badLinks: Entries<BadLink>)
    ensures Filter(BadLinkBlocks(badLinks), IsReasonLine) == Prefixed(ReasonPrefix, Reasons(badLinks))
  {
    if |badLinks| > 0 {
      var (k, b) := badLinks[0];
      BadLinkReasonLines(badLinks[1..]);
      FilterAppend(BadLinkLines(k, b), BadLinkBlocks(badLinks[1..]), IsReasonLine);
      BadLinkLinesFilter(k, b);
      ReasonsCons(badLinks);
      PrefixedCons(ReasonPrefix, b.reason, Reasons(badLinks[1..]));
    }
  }

  /** The location lines of the blocks are the page roots of exactly the links whose route has a page. */
  lemma {:induction false} BadLinkLocationLines(badLinks: Entries<BadLink>)
    ensures Filter(BadLinkBlocks(badLinks), IsLocationLine) == Prefixed(LocationPrefix, PageRoots(badLinks))
  {
    if |badLinks| > 0 {
      var (k, b) := badLinks[0];
      BadLinkLocationLines(badLinks[1..]);
      FilterAppend(BadLinkLines(k, b), BadLinkBlocks(badLinks[1..]), IsLocationLine);
      BadLinkLinesFilter(k, b);
      PageRootsCons(badLinks);
      if b.pageRoot.Some? {
        PrefixedCons(LocationPrefix, b.pageRoot.value, PageRoots(badLinks[1..]));
      }
    }
  }

  /**
   `logBadLinks`: nothing for an empty map; otherwise a blank line, the
   heading, a blank line and each bad link's block. `warnIcon` is the
   logger's warning glyph.
   */
  function LogBadLinks(badLinks: Entries<BadLink>, warnIcon: string): (r: Option<seq<string>>)
    ensures r.None? <==> |badLinks| == 0
    ensures r.Some? ==> |r.value| == 3 + 2 * |badLinks| + CountIf(badLinks, HasPage)
    ensures r.Some? ==> r.value[..3] == ["", warnIcon + " BAD LINKS", ""] && r.value[3..] == BadLinkBlocks(badLinks)
  {
    if |badLinks| == 0 then None
    else
      var lines := ["", warnIcon + " BAD LINKS", ""] + BadLinkBlocks(badLinks);
      assert lines[3..] == BadLinkBlocks(badLinks);
      Some(lines)
  }

  // ---------------------------------------------------------------------
  // logRoutesList
  // ---------------------------------------------------------------------

  /** The list style's section headings. */
  datatype Heading = StaticPages | ServerPages | ServerEndpoints | StaticRedirects | NotFound

  /** The heading's printed title, emoji first. */
  function Title(h: Heading): string
  {
    match h
    case StaticPages => "\U{1F4C4} STATIC PAGES"
    case ServerPages => "\U{2699}\U{FE0F}  SERVER PAGES"
    case ServerEndpoints => "\U{2699}\U{FE0F}  SERVER ENDPOINTS"
    case StaticRedirects => "\U{27A1}\U{FE0F}  STATIC REDIRECTS"
    case NotFound => "\U{1F6D1} NOT FOUND"
  }

  /** The suffix the page pattern pathname loses before it is compared with the link. */
  const IndexPatternSuffix: string := "{/}?{index}?{.html}?"

  /** The line for one static page: its `index.html` file and, when it differs, the route pattern. */
  function StaticPageLine(link: string, patternPathname: string): string
  {
    var routeText := ReplaceFirst(patternPathname, IndexPatternSuffix, "");
    var route := Slice(routeText, 1, |routeText|);
    var pathname := Slice(link, 1, -1);
    var pattern := if pathname != route then " (" + route + ")" else "";
    EntryPrefix + ((if |link| == 1 then "index.html" else pathname + "/index.html") + pattern)
  }

  function StaticPageLines(links: Entries<string>): (r: seq<string>)
    ensures |r| == |links|
  {
    seq(|links|, i requires 0 <= i < |links| => StaticPageLine(links[i].0, links[i].1))
  }

  /** One line per server route, last route first. */
  function ServerRouteLines(routes: seq<ServerRoute>): (r: seq<string>)
    ensures |r| == |routes|
    ensures forall i :: 0 <= i < |routes| ==> r[i] == EntryPrefix + routes[|routes| - 1 - i].dirRoute
  {
    seq(|routes|, i requires 0 <= i < |routes| => EntryPrefix + routes[|routes| - 1 - i].dirRoute)
  }

  function RedirectLines(redirects: Entries<Redirect>): (r: seq<string>)
    ensures |r| == |redirects|
  {
    seq(|redirects|, i requires 0 <= i < |redirects| =>
      EntryPrefix + (redirects[i].0 + " -> " + redirects[i].1.to + " (" + IntToString(redirects[i].1.status) + ")"))
  }

  function NotFoundLines(badLinks: Entries<BadLink>): (r: seq<string>)
    ensures |r| == |badLinks|
  {
    seq(|badLinks|, i requires 0 <= i < |badLinks| => EntryPrefix + (badLinks[i].0 + " (404)"))
  }

  /** Every heading, in print order. */
  const AllHeadings: seq<Heading> := [StaticPages, ServerPages, ServerEndpoints, StaticRedirects, NotFound]

  /** The heading's position in the print order. */
  function HeadingIndex(h: Heading): (i: nat)
    ensures i < |AllHeadings| && AllHeadings[i] == h
  {
    match h
    case StaticPages => 0
    case ServerPages => 1
    case ServerEndpoints => 2
    case StaticRedirects => 3
    case NotFound => 4
  }

  /**
   Whether a section is printed: the static pages at `info` (even when
   there are none), the server pages and endpoints at `info`, the
   redirects at `info` or `warn`, the not-found links at every level, the
   last four only when they have entries.
   */
  predicate Shown(level: Level, b: BuildData, h: Heading)
  {
    match h
    case StaticPages => level == Info
    case ServerPages => level == Info && |b.serverPages| > 0
    case ServerEndpoints => level == Info && |b.serverHttpEndpoints| > 0
    case StaticRedirects => (level == Info || level == Warn) && |b.staticRedirects| > 0
    case NotFound => |b.badLinks| > 0
  }

  /** The entry lines under a heading. */
  function SectionBody(b: BuildData, h: Heading): seq<string>
  {
    match h
    case StaticPages => StaticPageLines(b.links)
    case ServerPages => ServerRouteLines(b.serverPages)
    case ServerEndpoints => ServerRouteLines(b.serverHttpEndpoints)
    case StaticRedirects => RedirectLines(b.staticRedirects)
    case NotFound => NotFoundLines(b.badLinks)
  }

  /** The heading at a position of the print order. */
  function HeadingAt(k: nat): (h: Heading)
    requires k < |AllHeadings|
    ensures HeadingIndex(h) == k
  {
    AllHeadings[k]
  }

  /** The shown headings from position `k` of the print order on. */
  function ShownFrom(level: Level, b: BuildData, k: nat): (r: seq<Heading>)
    requires k <= |AllHeadings|
    ensures forall h :: h in r <==> Shown(level, b, h) && HeadingIndex(h) >= k
    ensures forall i :: 0 <= i < |r| ==> HeadingIndex(r[i]) >= k
    ensures forall i, j :: 0 <= i < j < |r| ==> HeadingIndex(r[i]) < HeadingIndex(r[j])
    decreases |AllHeadings| - k
  {
    if k == |AllHeadings| then []
    else
      var rest := ShownFrom(level, b, k + 1);
      var h := HeadingAt(k);
      assert forall x :: HeadingIndex(x) >= k ==> x == h || HeadingIndex(x) >= k + 1;
      if Shown(level, b, h) then [h] + rest else rest
  }

  /** The headings of the list-style log's sections, in print order, for the given level. */
  function Sections(level: Level, b: BuildData): (r: seq<Heading>)
    ensures forall h :: h in r <==> Shown(level, b, h)
    ensures forall i, j :: 0 <= i < j < |r| ==> HeadingIndex(r[i]) < HeadingIndex(r[j])
  {
    ShownFrom(level, b, 0)
  }

  /** Each section prints as a blank line, its title, a blank line and its entry lines. */
  function SectionLines(headings: seq<Heading>, b: BuildData): (r: seq<string>)
    ensures |r| == 0 <==> |headings| == 0
  {
    if |headings| == 0 then []
    else ["", Title(headings[0]), ""] + SectionBody(b, headings[0]) + SectionLines(headings[1..], b)
  }

  /**
   `logRoutesList`: the printed lines, followed by the blank line of the
   closing `console.log()`; nothing is printed when there are no lines.
   */
  function LogRoutesList(level: Level, b: BuildData): (r: seq<string>)
    ensures |r| > 0 <==> level == Info || (level == Warn && |b.staticRedirects| > 0) || |b.badLinks| > 0
    ensures |r| > 0 ==> r[|r| - 1] == ""
  {
    SomeSectionShown(level, b);
    Printed(SectionLines(Sections(level, b), b))
  }

  /** Lines written by `console.log(lines.join('\n'))` and a closing `console.log()`, when there are any. */
  function Printed(lines: seq<string>): (r: seq<string>)
    ensures |r| > 0 <==> |lines| > 0
    ensures |lines| > 0 ==> |r| == |lines| + 1 && r[..|lines|] == lines && r[|lines|] == ""
  {
    if |lines| > 0 then lines + [""] else []
  }

  /** Some section is shown exactly at `info`, at `warn` with redirects, or with bad links. */
  lemma SomeSectionShown(level: Level, b: BuildData)
    ensures |Sections(level, b)| > 0 <==> level == Info || (level == Warn && |b.staticRedirects| > 0) || |b.badLinks| > 0
  {
    var hs := Sections(level, b);
    if |hs| > 0 {
      assert Shown(level, b, hs[0]);
    }
    assert level == Info ==> StaticPages in hs;
    assert level == Warn && |b.staticRedirects| > 0 ==> StaticRedirects in hs;
    assert |b.badLinks| > 0 ==> NotFound in hs;
  }

  // ---------------------------------------------------------------------
  // Where the titles and the entry lines fall in the printed log
  // ---------------------------------------------------------------------

  predicate IsTitle(line: string)
  {
    exists h: Heading :: Title(h) == line
  }

  /** The titles of the given headings, in order. */
  function TitlesOf(hs: seq<Heading>): (r: seq<string>)
    ensures |r| == |hs|
  {
    seq(|hs|, i requires 0 <= i < |hs| => Title(hs[i]))
  }

  /** Distinct headings have distinct titles, and no title is blank or an entry line. */
  lemma TitleFacts(h: Heading)
    ensures forall g :: Title(g) == Title(h) ==> g == h
    ensures Title(h) != "" && !IsEntryLine(Title(h))
  {
    assert Title(h)[0] != '-';
  }

  lemma EntryIsNotTitle(line: string)
    requires IsEntryLine(line)
    ensures !IsTitle(line)
  {
    if IsTitle(line) {
      var h :| Title(h) == line;
      TitleFacts(h);
    }
  }

  predicate AllEntryLines(lines: seq<string>)
  {
    forall i :: 0 <= i < |lines| ==> IsEntryLine(lines[i])
  }

  lemma EntryPrefixed(x: string)
    ensures IsEntryLine(EntryPrefix + x)
  {
    assert (EntryPrefix + x)[..|EntryPrefix|] == EntryPrefix;
  }

  /** Every entry line of every section starts with `- `. */
  lemma SectionBodyEntries(b: BuildData, h: Heading)
    ensures AllEntryLines(SectionBody(b, h))
  {
    var body := SectionBody(b, h);
    forall i | 0 <= i < |body|
      ensures IsEntryLine(body[i])
    {
      match h
      case StaticPages => StaticPageEntry(b.links[i].0, b.links[i].1);
      case ServerPages => EntryPrefixed(b.serverPages[|b.serverPages| - 1 - i].dirRoute);
      case ServerEndpoints => EntryPrefixed(b.serverHttpEndpoints[|b.serverHttpEndpoints| - 1 - i].dirRoute);
      case StaticRedirects =>
        var (link, rd) := b.staticRedirects[i];
        EntryPrefixed(link + " -> " + rd.to + " (" + IntToString(rd.status) + ")");
      case NotFound => EntryPrefixed(b.badLinks[i].0 + " (404)");
    }
  }

  lemma StaticPageEntry(link: string, patternPathname: string)
    ensures IsEntryLine(StaticPageLine(link, patternPathname))
  {
    var line := StaticPageLine(link, patternPathname);
    assert line[..|EntryPrefix|] == EntryPrefix;
  }

  lemma BlankIsNotTitle()
    ensures !IsTitle("")
  {
    if IsTitle("") {
      var g :| Title(g) == "";
      TitleFacts(g);
    }
  }

  lemma TitlesOfCons(hs: seq<Heading>)
    requires |hs| > 0
    ensures TitlesOf(hs) == [Title(hs[0])] + TitlesOf(hs[1..])
  {
  }

  /** The title lines of the printed sections are the headings' titles, in the headings' order. */
  lemma {:induction false} SectionTitles(hs: seq<Heading>, b: BuildData)
    ensures Filter(SectionLines(hs, b), IsTitle) == TitlesOf(hs)
  {
    if |hs| > 0 {
      var h := hs[0];
      var body := SectionBody(b, h);
      SectionTitles(hs[1..], b);
      BlankIsNotTitle();
      SectionBodyEntries(b, h);
      forall i | 0 <= i < |body|
        ensures !IsTitle(body[i])
      {
        EntryIsNotTitle(body[i]);
      }
      FilterOnlySecond("", Title(h), "", body, SectionLines(hs[1..], b), IsTitle);
      TitlesOfCons(hs);
    }
  }

  /** `lines` holds `title` at `p`, then a blank line, then `body`. */
  predicate PlacedAt(lines: seq<string>, p: nat, title: string, body: seq<string>)
  {
    p + 2 + |body| <= |lines| && lines[p] == title && lines[p + 1] == "" && lines[p + 2..p + 2 + |body|] == body
  }

  lemma PlacedAtWithin(pre: seq<string>, mid: seq<string>, post: seq<string>, p: nat, title: string, body: seq<string>)
    requires PlacedAt(mid, p, title, body)
    ensures PlacedAt(pre + mid + post, |pre| + p, title, body)
  {
    var all := pre + mid + post;
    var q := |pre| + p + 2;
    assert all[q..q + |body|] == mid[p + 2..p + 2 + |body|];
  }

  lemma PlacedInSection(t: string, body: seq<string>, rest: seq<string>)
    ensures PlacedAt(["", t, ""] + body + rest, 1, t, body)
  {
    PlacedAtWithin([""], [t, ""] + body, rest, 0, t, body);
    assert [""] + ([t, ""] + body) + rest == ["", t, ""] + body + rest;
  }

  lemma PlacedAfterSection(t: string, body: seq<string>, rest: seq<string>, p: nat, t2: string, body2: seq<string>)
    requires PlacedAt(rest, p, t2, body2)
    ensures PlacedAt(["", t, ""] + body + rest, 3 + |body| + p, t2, body2)
  {
    PlacedAtWithin(["", t, ""] + body, rest, [], p, t2, body2);
    assert ["", t, ""] + body + rest + [] == ["", t, ""] + body + rest;
  }

  lemma SectionLinesCons(hs: seq<Heading>, b: BuildData)
    requires |hs| > 0
    ensures SectionLines(hs, b) == ["", Title(hs[0]), ""] + SectionBody(b, hs[0]) + SectionLines(hs[1..], b)
  {
  }

  /** Each printed section's title is followed by a blank line and the section's entry lines. */
  lemma {:induction false} SectionPlaced(hs: seq<Heading>, b: BuildData, h: Heading)
    requires h in hs
    ensures exists p: nat :: PlacedAt(SectionLines(hs, b), p, Title(h), SectionBody(b, h))
  {
    var t, body := Title(h), SectionBody(b, h);
    var rest := SectionLines(hs[1..], b);
    SectionLinesCons(hs, b);
    if hs[0] == h {
      PlacedInSection(t, body, rest);
      assert PlacedAt(SectionLines(hs, b), 1, t, body);
    } else {
      assert h in hs[1..];
      SectionPlaced(hs[1..], b, h);
      var p: nat :| PlacedAt(rest, p, t, body);
      PlacedAfterSection(Title(hs[0]), SectionBody(b, hs[0]), rest, p, t, body);
    }
  }

  /** A heading's title is among the titles of `hs` exactly when the heading is in `hs`. */
  lemma TitlesOfMembers(hs: seq<Heading>, h: Heading)
    ensures Title(h) in TitlesOf(hs) <==> h in hs
  {
    TitleFacts(h);
    if Title(h) in TitlesOf(hs) {
      var i :| 0 <= i < |hs| && TitlesOf(hs)[i] == Title(h);
      assert Title(hs[i]) == Title(h);
    }
    if h in hs {
      var i :| 0 <= i < |hs| && hs[i] == h;
      assert TitlesOf(hs)[i] == Title(h);
    }
  }

  /** The titles of printed sections, with the closing blank line added. */
  lemma PrintedTitles(hs: seq<Heading>, b: BuildData)
    ensures Filter(Printed(SectionLines(hs, b)), IsTitle) == TitlesOf(hs)
  {
    var lines := SectionLines(hs, b);
    SectionTitles(hs, b);
    if |lines| > 0 {
      FilterAppend(lines, [""], IsTitle);
      FilterOne("", IsTitle);
      BlankIsNotTitle();
    }
  }

  /** A placement survives the closing blank line. */
  lemma PlacedInPrinted(lines: seq<string>, p: nat, t: string, body: seq<string>)
    requires PlacedAt(lines, p, t, body)
    ensures PlacedAt(Printed(lines), p, t, body)
  {
    PlacedAtWithin([], lines, [""], p, t, body);
    assert [] + lines + [""] == Printed(lines);
  }

  /** Each printed section's placement survives the closing blank line. */
  lemma PrintedPlaced(hs: seq<Heading>, b: BuildData, h: Heading)
    requires h in hs
    ensures exists p: nat :: PlacedAt(Printed(SectionLines(hs, b)), p, Title(h), SectionBody(b, h))
  {
    SectionPlaced(hs, b, h);
    var p: nat :| PlacedAt(SectionLines(hs, b), p, Title(h), SectionBody(b, h));
    PlacedInPrinted(SectionLines(hs, b), p, Title(h), SectionBody(b, h));
  }

  /** The titles in the printed log are those of the shown sections, each once, in print order. */
  lemma LogRoutesListTitles(level: Level, b: BuildData)
    ensures Filter(LogRoutesList(level, b), IsTitle) == TitlesOf(Sections(level, b))
  {
    PrintedTitles(Sections(level, b), b);
  }

  /** A section's title is printed exactly when the section is shown. */
  lemma LogRoutesListShownTitles(level: Level, b: BuildData)
    ensures forall h :: Title(h) in LogRoutesList(level, b) <==> Shown(level, b, h)
  {
    var hs := Sections(level, b);
    LogRoutesListTitles(level, b);
    forall h
      ensures Title(h) in LogRoutesList(level, b) <==> Shown(level, b, h)
    {
      TitleFacts(h);
      TitlesOfMembers(hs, h);
    }
  }

  /** Every shown section prints its title, a blank line and its entry lines, one after the other. */
  lemma LogRoutesListSection(level: Level, b: BuildData, h: Heading)
    requires Shown(level, b, h)
    ensures exists p: nat :: PlacedAt(LogRoutesList(level, b), p, Title(h), SectionBody(b, h))
  {
    var hs := Sections(level, b);
    var t, body := Title(h), SectionBody(b, h);
    assert h in hs;
    PrintedPlaced(hs, b, h);
    var p: nat :| PlacedAt(Printed(SectionLines(hs, b)), p, t, body);
    assert LogRoutesList(level, b) == Printed(SectionLines(hs, b));
    assert PlacedAt(LogRoutesList(level, b), p, t, body);
  }
}
