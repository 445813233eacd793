/**
 The static build adapter's `write()` (packages/app/src/node/build/adapter/static/adapter.ts):
 the redirect and data hash tables and their script tags, the head and body
 tags of each page, the substitution of the three template placeholders,
 and the files handed to the three write calls.

 The helpers the adapter receives (`createLinkTag`, `createPreloadTag`,
 `createStaticDataScriptTag`, `resolvePageResources`, `buildSitemaps`) are
 parameters; spinners, logging and the file system are not modelled.
 */
module StaticAdapter {

  import opened Wrappers
  import opened Strings
  import opened Seqs
  import opened OrderedMap
  import opened Json

  /** `createStaticBuildAdapter(options)`: the one option the adapter reads. */
  datatype Options = Options(trailingSlash: Option<bool>)

  /** `options.trailingSlash ?? true`. */
  function TrailingSlash(o: Options): (r: bool)
    ensures o.trailingSlash.None? ==> r
    ensures o.trailingSlash.Some? ==> r == o.trailingSlash.value
  {
    o.trailingSlash.GetOr(true)
  }

  const TrailingSlashScript: string := "<script>__VSL_TRAILING_SLASH__ = false;</script>"

  /** The tag telling the client not to add trailing slashes: present iff the policy is off. */
  function TrailingSlashTag(trailingSlash: bool): (r: string)
    ensures r != "" <==> !trailingSlash
    ensures r != "" ==> r == TrailingSlashScript
  {
    if !trailingSlash then TrailingSlashScript else ""
  }

  /** With no options the trailing-slash policy is on and its tag is empty. */
  lemma DefaultTrailingSlash()
    ensures TrailingSlash(Options(None)) && TrailingSlashTag(TrailingSlash(Options(None))) == ""
  {
  }

  datatype File = File(filename: string, content: string)

  /** An entry of `build.staticRedirects`. */
  datatype StaticRedirect = StaticRedirect(filename: string, html: string, from: string, to: string, status: int)

  /** An entry of `build.staticData`. */
  datatype StaticDataFile = StaticDataFile(filename: string, serializedData: string, idHash: string, contentHash: string)

  /**
   A string-valued object filled by `table[k] = v` for the pairs in order:
   each key is present iff some pair has it, and holds the value of its last pair.
   */
  function TableOf(pairs: seq<(string, string)>): (r: Entries<string>)
    ensures UniqueKeys(r)
    ensures forall k :: HasKey(r, k) <==> exists i :: 0 <= i < |pairs| && pairs[i].0 == k
    ensures forall i :: 0 <= i < |pairs| && (forall j :: i < j < |pairs| ==> pairs[j].0 != pairs[i].0) ==>
              Get(r, pairs[i].0) == Some(pairs[i].1)
    ensures |r| == 0 <==> |pairs| == 0
  {
    var r := FromPairs(pairs);
    forall i | 0 <= i < |pairs| && (forall j :: i < j < |pairs| ==> pairs[j].0 != pairs[i].0)
      ensures Get(r, pairs[i].0) == Some(pairs[i].1)
    {
      LastValueLast(pairs, i);
    }
    forall k ensures HasKey(r, k) <==> exists i :: 0 <= i < |pairs| && pairs[i].0 == k {
      assert Get(r, k) == LastValue(pairs, k);
    }
    assert |pairs| > 0 ==> HasKey(r, pairs[0].0);
    r
  }

  function RedirectPairs(redirects: seq<StaticRedirect>): (r: seq<(string, string)>)
    ensures |r| == |redirects| && forall i :: 0 <= i < |r| ==> r[i] == (redirects[i].from, redirects[i].to)
  {
    seq(|redirects|, i requires 0 <= i < |redirects| => (redirects[i].from, redirects[i].to))
  }

  function DataPairs(data: seq<StaticDataFile>): (r: seq<(string, string)>)
    ensures |r| == |data| && forall i :: 0 <= i < |r| ==> r[i] == (data[i].idHash, data[i].contentHash)
  {
    seq(|data|, i requires 0 <= i < |data| => (data[i].idHash, data[i].contentHash))
  }

  /** `redirectsTable`: every redirect's `from` maps to its `to`, the last one winning. */
  function RedirectsTable(redirects: seq<StaticRedirect>): (r: Entries<string>)
    ensures UniqueKeys(r)
    ensures forall k :: HasKey(r, k) <==> exists i :: 0 <= i < |redirects| && redirects[i].from == k
    ensures forall i :: 0 <= i < |redirects| && (forall j :: i < j < |redirects| ==> redirects[j].from != redirects[i].from) ==>
              Get(r, redirects[i].from) == Some(redirects[i].to)
  {
    var pairs := RedirectPairs(redirects);
    var r := TableOf(pairs);
    forall k ensures HasKey(r, k) <==> exists i :: 0 <= i < |redirects| && redirects[i].from == k {
      if HasKey(r, k) {
        var i :| 0 <= i < |pairs| && pairs[i].0 == k;
        assert redirects[i].from == k;
      }
      if exists i :: 0 <= i < |redirects| && redirects[i].from == k {
        var i :| 0 <= i < |redirects| && redirects[i].from == k;
        assert pairs[i].0 == k;
      }
    }
    r
  }

  /** `dataTable`: every data file's `idHash` maps to its `contentHash`, the last one winning. */
  function DataTable(data: seq<StaticDataFile>): (r: Entries<string>)
    ensures UniqueKeys(r)
    ensures forall k :: HasKey(r, k) <==> exists i :: 0 <= i < |data| && data[i].idHash == k
    ensures forall i :: 0 <= i < |data| && (forall j :: i < j < |data| ==> data[j].idHash != data[i].idHash) ==>
              Get(r, data[i].idHash) == Some(data[i].contentHash)
  {
    var pairs := DataPairs(data);
    var r := TableOf(pairs);
    forall k ensures HasKey(r, k) <==> exists i :: 0 <= i < |data| && data[i].idHash == k {
      if HasKey(r, k) {
        var i :| 0 <= i < |pairs| && pairs[i].0 == k;
        assert data[i].idHash == k;
      }
      if exists i :: 0 <= i < |data| && data[i].idHash == k {
        var i :| 0 <= i < |data| && data[i].idHash == k;
        assert pairs[i].0 == k;
      }
    }
    r
  }

  /** The table as a JSON object of strings. */
  function TableJson(t: Entries<string>): Json
  {
    JObj(seq(|t|, i requires 0 <= i < |t| => (t[i].0, JStr(t[i].1))))
  }

  /**
   `<script>GLOBAL = JSON.parse(...)</script>` carrying the table as a string
   literal holding its JSON text, or nothing for an empty table. The literal
   parses back to exactly that text.
   */
  function TableScriptTag(global: string, t: Entries<string>): (r: string)
    ensures r == "" <==> |t| == 0
    ensures |t| > 0 ==> exists lit :: r == "<script>" + global + " = JSON.parse(" + lit + ");</script>"
                                      && ParseStringLiteral(lit) == Some(Stringify(TableJson(t)))
  {
    if |t| > 0 then
      var lit := Stringify(JStr(Stringify(TableJson(t))));
      StringLiteralRoundTrip(Stringify(TableJson(t)));
      "<script>" + global + " = JSON.parse(" + lit + ");</script>"
    else ""
  }

  const RedirectsGlobal: string := "__VSL_STATIC_REDIRECTS_MAP__"
  const DataHashGlobal: string := "__VSL_STATIC_DATA_HASH_MAP__"

  /** The redirects script tag is empty iff there are no redirects. */
  lemma RedirectsTagEmpty(redirects: seq<StaticRedirect>)
    ensures TableScriptTag(RedirectsGlobal, RedirectsTable(redirects)) == "" <==> |redirects| == 0
  {
    var t := RedirectsTable(redirects);
    if |redirects| > 0 {
      assert HasKey(t, redirects[0].from);
    }
  }

  /** The data hash script tag is empty iff there are no data files. */
  lemma DataTagEmpty(data: seq<StaticDataFile>)
    ensures TableScriptTag(DataHashGlobal, DataTable(data)) == "" <==> |data| == 0
  {
    var t := DataTable(data);
    if |data| > 0 {
      assert HasKey(t, data[0].idHash);
    }
  }

  // ---------------------------------------------------------------------------
  // Pages
  // ---------------------------------------------------------------------------

  /** What `resolvePageResources(route)` returns. */
  datatype PageResources = PageResources(assets: seq<string>, imports: seq<string>, dynamicImports: seq<string>)

  /** A static render: its output file, route, SSR result and the data it loaded. */
  datatype Render = Render(filename: string, route: string, css: Option<string>, head: Option<string>,
                           html: string, dataAssetIds: seq<string>)

  /** The adapter's helpers, supplied by the build. */
  datatype Helpers = Helpers(linkTag: (string, string) -> string, preloadTag: string -> string,
                             staticDataTag: seq<string> -> string, resources: string -> PageResources)

  function MapTags(files: seq<string>, tag: string -> string): (r: seq<string>)
    ensures |r| == |files| && forall i :: 0 <= i < |r| ==> r[i] == tag(files[i])
  {
    seq(|files|, i requires 0 <= i < |files| => tag(files[i]))
  }

  function PrefetchTag(h: Helpers): string -> string
  {
    (f: string) => h.linkTag("prefetch", f)
  }

  const HeadSeparator: string := "\n    "

  /** The candidate head tags in the adapter's order. */
  function HeadCandidates(stylesheetTag: string, render: Render, h: Helpers): seq<string>
  {
    var res := h.resources(render.route);
    [stylesheetTag, render.css.GetOr("")]
      + MapTags(res.assets + res.imports, h.preloadTag)
      + MapTags(res.dynamicImports, PrefetchTag(h))
      + [render.head.GetOr("")]
  }

  /** `headTags`: the non-empty candidates joined with a newline and indentation. */
  function HeadTags(stylesheetTag: string, render: Render, h: Helpers): string
  {
    Join(NonEmpty(HeadCandidates(stylesheetTag, render, h)), HeadSeparator)
  }

  /**
   The head tags come in the order stylesheet, SSR css, preloads of the
   assets, preloads of the imports, prefetches of the dynamic imports, SSR
   head, each group without its empty tags.
   */
  lemma HeadTagsOrder(stylesheetTag: string, render: Render, h: Helpers)
    ensures var res := h.resources(render.route);
            HeadTags(stylesheetTag, render, h) ==
              Join(NonEmpty([stylesheetTag]) + NonEmpty([render.css.GetOr("")])
                   + NonEmpty(MapTags(res.assets, h.preloadTag)) + NonEmpty(MapTags(res.imports, h.preloadTag))
                   + NonEmpty(MapTags(res.dynamicImports, PrefetchTag(h))) + NonEmpty([render.head.GetOr("")]),
                   HeadSeparator)
  {
    var res := h.resources(render.route);
    var a, b := [stylesheetTag], [render.css.GetOr("")];
    var c, d := MapTags(res.assets, h.preloadTag), MapTags(res.imports, h.preloadTag);
    var e, f := MapTags(res.dynamicImports, PrefetchTag(h)), [render.head.GetOr("")];
    assert MapTags(res.assets + res.imports, h.preloadTag) == c + d;
    assert HeadCandidates(stylesheetTag, render, h) == a + b + c + d + e + f;
    NonEmptyAppend(a + b + c + d + e, f);
    NonEmptyAppend(a + b + c + d, e);
    NonEmptyAppend(a + b + c, d);
    NonEmptyAppend(a + b, c);
    NonEmptyAppend(a, b);
  }

  function EntryScriptTag(entrySrc: string): string
  {
    "<script type=\"module\" src=\"/" + entrySrc + "\" defer></script>"
  }

  /** `bodyTags`: the non-empty tags joined without a separator. */
  function BodyTags(redirectsTag: string, dataHashTag: string, staticDataTag: string, trailingSlashTag: string,
                    entryTag: string): string
  {
    Join(NonEmpty([redirectsTag, dataHashTag, staticDataTag, trailingSlashTag, entryTag]), "")
  }

  /** Dropping empty tags before a separator-free join changes nothing: the body tags are the five in order. */
  lemma BodyTagsConcat(redirectsTag: string, dataHashTag: string, staticDataTag: string, trailingSlashTag: string,
                       entryTag: string)
    ensures BodyTags(redirectsTag, dataHashTag, staticDataTag, trailingSlashTag, entryTag)
            == redirectsTag + (dataHashTag + (staticDataTag + (trailingSlashTag + entryTag)))
  {
    var parts := [redirectsTag, dataHashTag, staticDataTag, trailingSlashTag, entryTag];
    assert BodyTags(redirectsTag, dataHashTag, staticDataTag, trailingSlashTag, entryTag) == Concat(parts) by {
      JoinEmptySeparator(NonEmpty(parts));
      ConcatNonEmpty(parts);
    }
    var a, b, c, d, e := redirectsTag, dataHashTag, staticDataTag, trailingSlashTag, entryTag;
    assert Concat([e]) == e by {
      assert [e][1..] == [];
    }
    assert Concat([d, e]) == d + e by {
      assert [d, e][1..] == [e];
    }
    assert Concat([c, d, e]) == c + (d + e) by {
      assert [c, d, e][1..] == [d, e];
    }
    assert Concat([b, c, d, e]) == b + (c + (d + e)) by {
      assert [b, c, d, e][1..] == [c, d, e];
    }
    assert Concat(parts) == a + (b + (c + (d + e))) by {
      assert parts[1..] == [b, c, d, e];
    }
  }

  const HeadPlaceholder: string := "<!--@vessel/head-->"
  const AppPlaceholder: string := "<!--@vessel/app-->"
  const BodyPlaceholder: string := "<!--@vessel/body-->"

  /** The page: the first occurrence of each placeholder replaced, head first, then app, then body. */
  function PageHtml(template: string, headTags: string, appHtml: string, bodyTags: string): string
  {
    ReplaceFirst(ReplaceFirst(ReplaceFirst(template, HeadPlaceholder, headTags), AppPlaceholder, appHtml),
                 BodyPlaceholder, bodyTags)
  }

  /**
   For a template laid out as `p0 head p1 app p2 body p3`, the page is the
   template with the three parts in place, provided no earlier occurrence of
   a placeholder (in the template or in inserted text) comes first.
   */
  lemma PageHtmlFills(p0: string, p1: string, p2: string, p3: string, headTags: string, appHtml: string, bodyTags: string)
    requires !Contains(p0 + HeadPlaceholder[..|HeadPlaceholder| - 1], HeadPlaceholder)
    requires !Contains(p0 + headTags + p1 + AppPlaceholder[..|AppPlaceholder| - 1], AppPlaceholder)
    requires !Contains(p0 + headTags + p1 + appHtml + p2 + BodyPlaceholder[..|BodyPlaceholder| - 1], BodyPlaceholder)
    ensures PageHtml(p0 + HeadPlaceholder + p1 + AppPlaceholder + p2 + BodyPlaceholder + p3, headTags, appHtml, bodyTags)
            == p0 + headTags + p1 + appHtml + p2 + bodyTags + p3
  {
    FillsInOrder(p0, p1, p2, p3, HeadPlaceholder, AppPlaceholder, BodyPlaceholder, headTags, appHtml, bodyTags);
  }

  /** `PageHtmlFills` for any three non-empty placeholders. */
  lemma FillsInOrder(p0: string, p1: string, p2: string, p3: string, ph: string, pa: string, pb: string,
                     h: string, a: string, b: string)
    requires |ph| > 0 && |pa| > 0 && |pb| > 0
    requires !Contains(p0 + ph[..|ph| - 1], ph)
    requires !Contains(p0 + h + p1 + pa[..|pa| - 1], pa)
    requires !Contains(p0 + h + p1 + a + p2 + pb[..|pb| - 1], pb)
    ensures ReplaceFirst(ReplaceFirst(ReplaceFirst(p0 + ph + p1 + pa + p2 + pb + p3, ph, h), pa, a), pb, b)
            == p0 + h + p1 + a + p2 + b + p3
  {
    var rest0 := p1 + pa + p2 + pb + p3;
    Regroup(p0, ph, p1, pa, p2, pb, p3);
    ReplaceFirstAt(p0, ph, rest0, h);
    var pre1, rest1 := p0 + h + p1, p2 + pb + p3;
    Regroup3(p0, h, p1, pa, p2, pb, p3);
    ReplaceFirstAt(pre1, pa, rest1, a);
    var pre2 := p0 + h + p1 + a + p2;
    Regroup5(p0, h, p1, a, p2, pb, p3);
    ReplaceFirstAt(pre2, pb, p3, b);
  }

  lemma Regroup(x0: string, x1: string, x2: string, x3: string, x4: string, x5: string, x6: string)
    ensures x0 + x1 + x2 + x3 + x4 + x5 + x6 == x0 + x1 + (x2 + x3 + x4 + x5 + x6)
  {
  }

  lemma Regroup3(x0: string, x1: string, x2: string, x3: string, x4: string, x5: string, x6: string)
    ensures x0 + x1 + (x2 + x3 + x4 + x5 + x6) == (x0 + x1 + x2) + x3 + (x4 + x5 + x6)
    ensures x0 + x1 + x2 + x3 + (x4 + x5 + x6) == x0 + x1 + x2 + x3 + x4 + x5 + x6
  {
  }

  lemma Regroup5(x0: string, x1: string, x2: string, x3: string, x4: string, x5: string, x6: string)
    ensures x0 + x1 + x2 + x3 + (x4 + x5 + x6) == (x0 + x1 + x2 + x3 + x4) + x5 + x6
  {
  }

  // ---------------------------------------------------------------------------
  // Write
  // ---------------------------------------------------------------------------

  /** What `write()` is given besides the options. */
  datatype Build = Build(redirects: seq<StaticRedirect>, data: seq<StaticDataFile>, renders: seq<Render>,
                         template: string, entrySrc: string, appCss: Option<string>,
                         sitemapCount: nat, sitemaps: seq<(string, string)>)

  function RedirectFiles(redirects: seq<StaticRedirect>): (r: seq<File>)
    ensures |r| == |redirects| && forall i :: 0 <= i < |r| ==> r[i] == File(redirects[i].filename, redirects[i].html)
  {
    seq(|redirects|, i requires 0 <= i < |redirects| => File(redirects[i].filename, redirects[i].html))
  }

  function DataFiles(data: seq<StaticDataFile>): (r: seq<File>)
    ensures |r| == |data| && forall i :: 0 <= i < |r| ==> r[i] == File(data[i].filename, data[i].serializedData)
  {
    seq(|data|, i requires 0 <= i < |data| => File(data[i].filename, data[i].serializedData))
  }

  function StylesheetTag(b: Build, h: Helpers): string
  {
    match b.appCss
    case Some(f) => h.linkTag("stylesheet", f)
    case None => ""
  }

  /** The page for one render. */
  function RenderPage(o: Options, b: Build, h: Helpers, render: Render): string
  {
    var body := BodyTags(TableScriptTag(RedirectsGlobal, RedirectsTable(b.redirects)),
                         TableScriptTag(DataHashGlobal, DataTable(b.data)),
                         h.staticDataTag(render.dataAssetIds),
                         TrailingSlashTag(TrailingSlash(o)),
                         EntryScriptTag(b.entrySrc));
    PageHtml(b.template, HeadTags(StylesheetTag(b, h), render, h), render.html, body)
  }

  /** `htmlFiles`: one page per render, in order, then the sitemaps when any are configured. */
  function HtmlFiles(o: Options, b: Build, h: Helpers): (r: seq<File>)
    ensures |r| == |b.renders| + (if b.sitemapCount > 0 then |b.sitemaps| else 0)
    ensures forall i :: 0 <= i < |b.renders| ==> r[i] == File(b.renders[i].filename, RenderPage(o, b, h, b.renders[i]))
    ensures b.sitemapCount > 0 ==> forall i :: 0 <= i < |b.sitemaps| ==>
              r[|b.renders| + i] == File(b.sitemaps[i].0, b.sitemaps[i].1)
  {
    var pages := seq(|b.renders|, i requires 0 <= i < |b.renders| => File(b.renders[i].filename, RenderPage(o, b, h, b.renders[i])));
    var maps := seq(|b.sitemaps|, i requires 0 <= i < |b.sitemaps| => File(b.sitemaps[i].0, b.sitemaps[i].1));
    pages + (if b.sitemapCount > 0 then maps else [])
  }

  /** The file lists of the write calls, in order, as the source writes them. */
  function WriteCalls(o: Options, b: Build, h: Helpers): (r: seq<seq<File>>)
    ensures |r| >= 1 && r[0] == HtmlFiles(o, b, h)
    ensures forall i :: 1 <= i < |r| ==> r[i] == DataFiles(b.data)
    ensures |r| == 1 + (if |b.redirects| > 0 then 1 else 0) + (if |b.data| > 0 then 1 else 0)
  {
    [HtmlFiles(o, b, h)]
      + (if |RedirectFiles(b.redirects)| > 0 then [DataFiles(b.data)] else [])
      + (if |DataFiles(b.data)| > 0 then [DataFiles(b.data)] else [])
  }

  /** The write calls with the redirect stubs in the second call. */
  function WriteCallsIntended(o: Options, b: Build, h: Helpers): (r: seq<seq<File>>)
    ensures |r| >= 1 && r[0] == HtmlFiles(o, b, h)
    ensures |b.redirects| > 0 ==> |r| >= 2 && r[1] == RedirectFiles(b.redirects)
    ensures |b.data| > 0 ==> r[|r| - 1] == DataFiles(b.data)
    ensures forall f :: f in RedirectFiles(b.redirects) + DataFiles(b.data) ==> exists i :: 0 <= i < |r| && f in r[i]
  {
    var r := [HtmlFiles(o, b, h)]
      + (if |RedirectFiles(b.redirects)| > 0 then [RedirectFiles(b.redirects)] else [])
      + (if |DataFiles(b.data)| > 0 then [DataFiles(b.data)] else []);
    forall f | f in RedirectFiles(b.redirects) + DataFiles(b.data) ensures exists i :: 0 <= i < |r| && f in r[i] {
      if f in RedirectFiles(b.redirects) {
        assert f in r[1];
      } else {
        assert f in r[|r| - 1];
      }
    }
    r
  }

  /**
   As written, a build with one redirect and no data writes no redirect stub:
   the second call is handed the (empty) data files.
   */
  lemma RedirectStubNotWritten(o: Options, h: Helpers, template: string, entrySrc: string)
    ensures var r := StaticRedirect("old/index.html", "<meta>", "/old/", "/new/", 302);
            var b := Build([r], [], [], template, entrySrc, None, 0, []);
            var calls := WriteCalls(o, b, h);
            |calls| == 2 && calls[1] == []
            && !(exists i :: 0 <= i < |calls| && File(r.filename, r.html) in calls[i])
  {
    var r := StaticRedirect("old/index.html", "<meta>", "/old/", "/new/", 302);
    var b := Build([r], [], [], template, entrySrc, None, 0, []);
    var calls := WriteCalls(o, b, h);
    assert calls[0] == [];
  }
}
