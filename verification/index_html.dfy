/**
 The app's HTML template (packages/app/src/node/vite/core/index-html.ts):
 the default `index.html` and the transform `readIndexHtmlFile` applies to
 it. Whether the app has its own `index.html`, and its contents, come in
 as a parameter; the file read itself is left to the caller.
 */
module IndexHtml {

  import opened Wrappers
  import opened Strings
  import StaticAdapter

  const HeadPlaceholder: string := StaticAdapter.HeadPlaceholder
  const AppPlaceholder: string := StaticAdapter.AppPlaceholder
  const BodyPlaceholder: string := StaticAdapter.BodyPlaceholder

  /** The marker the app version replaces. */
  const VersionMarker: string := "{{ version }}"

  /**
   An HTML template cut at its generator tag's `@` and at its three
   placeholders: the text before `@`, the version marker after it, and the
   text around the head, app and body placeholders.
   */
  datatype Layout = Layout(
    docStart: string, versionMarker: string, afterVersion: string,
    head: string, betweenHeadAndApp: string, app: string, betweenAppAndBody: string, body: string, docEnd: string)

  /** The text in front of the head placeholder. */
  function BeforeHead(l: Layout): string
  {
    l.docStart + "@" + l.versionMarker + l.afterVersion
  }

  /** The text after the head placeholder. */
  function AfterHead(l: Layout): string
  {
    l.betweenHeadAndApp + l.app + l.betweenAppAndBody + l.body + l.docEnd
  }

  function Render(l: Layout): string
  {
    BeforeHead(l) + l.head + AfterHead(l)
  }

  // The default template's text, in short pieces so that its characters can be scanned.
  const DocStart: string := Doctype + CharsetMeta + ViewportMeta + GeneratorMeta
  const Doctype: string := "\n<!DOCTYPE html>\n" + "<html lang=\"en-US\">\n"
  const CharsetMeta: string := "  <head>\n    <meta " + "charset=\"utf-8\" />\n"
  const ViewportMeta: string :=
    "    <meta name=\"viewport\" " + "content=\"width=device-" + "width,initial-scale=1\" />\n"
  const GeneratorMeta: string := "    <meta name=\"generator\" " + "content=\"vessel"
  const AfterVersion: string := "\" />\n    "
  const BetweenHeadAndApp: string :=
    "\n  </head>\n  <body>\n" + "    <noscript>You need " + "to enable JavaScript to " + "run this app.</noscript>\n"
    + "    <div id=\"app\">"
  const BetweenAppAndBody: string := "</div>\n    "
  const DocEnd: string := "\n  </body>\n</html>\n"

  const DefaultLayout: Layout :=
    Layout(DocStart, VersionMarker, AfterVersion,
           HeadPlaceholder, BetweenHeadAndApp, AppPlaceholder, BetweenAppAndBody, BodyPlaceholder, DocEnd)

  /** `DEFAULT_INDEX_HTML`. */
  const DefaultIndexHtml: string := Render(DefaultLayout)

  /** The client entry script the dev server adds to the head. */
  const DevClientScript: string := "<script type=\"module\" " + "src=\"/:virtual/vessel/" + "client\"></script>"

  /** Putting `x + p` in place of the `p` at `k` is putting `x` in front of it. */
  lemma InsertAt(html: string, p: string, x: string, k: nat)
    requires OccursAt(html, p, k)
    ensures html[..k] + (x + p) + html[k + |p|..] == html[..k] + x + html[k..]
  {
    assert html[k..] == p + html[k + |p|..];
  }

  /**
   `html.replace(p, x + p)`: `x` goes in front of the first `p`, which stays
   in place; HTML without `p` is unchanged.
   */
  function InsertBefore(html: string, p: string, x: string): (r: string)
    ensures !Contains(html, p) ==> r == html
    ensures Contains(html, p) ==>
              exists k :: OccursAt(html, p, k) && (forall j :: 0 <= j < k ==> !OccursAt(html, p, j))
                          && r == html[..k] + x + html[k..]
  {
    var r := ReplaceFirst(html, p, x + p);
    if Contains(html, p) then
      var k :| OccursAt(html, p, k) && (forall j :: 0 <= j < k ==> !OccursAt(html, p, j))
               && r == html[..k] + (x + p) + html[k + |p|..];
      InsertAt(html, p, x, k);
      r
    else r
  }

  /**
   `readIndexHtmlFile(app, { dev })`: the app's own `index.html` when it
   has one, else the default; in dev mode (the default) the client script is
   added to the head; then the first version marker becomes the app
   version.
   */
  function ReadIndexHtml(appIndexHtml: Option<string>, dev: bool, version: string): (r: string)
    ensures appIndexHtml.Some? && !dev && !Contains(appIndexHtml.value, VersionMarker) ==> r == appIndexHtml.value
  {
    Transform(appIndexHtml.GetOr(DefaultIndexHtml), dev, version, HeadPlaceholder, DevClientScript + "\n\t", VersionMarker)
  }

  /** The edits of `readIndexHtmlFile`, over the placeholder, the dev insert and the version marker. */
  function Transform(html: string, dev: bool, version: string, head: string, insert: string, marker: string): string
  {
    ReplaceFirst(if dev then InsertBefore(html, head, insert) else html, marker, version)
  }

  // ---------------------------------------------------------------------------
  // Placeholders occur once
  // ---------------------------------------------------------------------------

  /** `p` occurs in `s` at `k` and nowhere else. */
  ghost predicate OccursOnlyAt(s: string, p: string, k: nat)
  {
    OccursAt(s, p, k) && forall j :: OccursAt(s, p, j) ==> j == k
  }

  /** An occurrence of `p` at `k` puts `p[m]` at `k + m`. */
  lemma OccursChar(s: string, p: string, k: int, m: nat)
    requires OccursAt(s, p, k) && m < |p|
    ensures s[k + m] == p[m]
  {
    assert s[k..k + |p|][m] == s[k + m];
  }

  /**
   A pattern with `@` at index 4 that occurs at `k` occurs nowhere else when
   the other `@` positions of the text (at most three) are each ruled out.
   */
  lemma OnlyOccurrence(t: string, p: string, k: nat, c1: int, c2: int, c3: int)
    requires OccursAt(t, p, k) && |p| > 4 && p[4] == '@'
    requires forall i :: 0 <= i < |t| && t[i] == '@' ==> i == k + 4 || i == c1 || i == c2 || i == c3
    requires !OccursAt(t, p, c1 - 4) && !OccursAt(t, p, c2 - 4) && !OccursAt(t, p, c3 - 4)
    ensures OccursOnlyAt(t, p, k)
  {
    forall j | OccursAt(t, p, j)
      ensures j == k
    {
      OccursChar(t, p, j, 4);
    }
  }

  /** A placeholder `<!--@name-->`: it opens with `<`, its only `@` is at index 4, and its name reaches index 12. */
  predicate PlaceholderShaped(p: string)
  {
    |p| > 12 && p[0] == '<' && p[4] == '@' && forall j :: 0 <= j < |p| && p[j] == '@' ==> j == 4
  }

  /**
   What makes the placeholders of a layout findable: the text holds no `@`,
   the placeholders are shaped alike but differ at index 12, and the
   generator's `@` is not the `@` of a placeholder starting four characters
   earlier.
   */
  predicate Separable(l: Layout)
  {
    && '@' !in l.docStart && '@' !in l.versionMarker && '@' !in l.afterVersion
    && '@' !in l.betweenHeadAndApp && '@' !in l.betweenAppAndBody && '@' !in l.docEnd
    && PlaceholderShaped(l.head) && PlaceholderShaped(l.app) && PlaceholderShaped(l.body)
    && l.head[12] != l.app[12] && l.app[12] != l.body[12] && l.head[12] != l.body[12]
    && |l.docStart| >= 4 && l.docStart[|l.docStart| - 4] != '<'
  }

  // Where the generator's `@` and the three placeholders start.
  function GeneratorAt(l: Layout): nat { |l.docStart| }
  function HeadAt(l: Layout): nat { |l.docStart| + 1 + |l.versionMarker| + |l.afterVersion| }
  function AppAt(l: Layout): nat { HeadAt(l) + |l.head| + |l.betweenHeadAndApp| }
  function BodyAt(l: Layout): nat { AppAt(l) + |l.app| + |l.betweenAppAndBody| }

  /** A separable layout holds `@` only in the generator tag and in the placeholders. */
  lemma AtSigns(l: Layout)
    requires Separable(l)
    ensures forall i :: 0 <= i < |Render(l)| && Render(l)[i] == '@' ==>
              i == GeneratorAt(l) || i == HeadAt(l) + 4 || i == AppAt(l) + 4 || i == BodyAt(l) + 4
  {
    var t := Render(l);
    var g, h, a, b := GeneratorAt(l), HeadAt(l), AppAt(l), BodyAt(l);
    forall i | 0 <= i < |t|
      ensures t[i] == '@' ==> i == g || i == h + 4 || i == a + 4 || i == b + 4
    {
      if i < g {
        assert t[i] == l.docStart[i];
      } else if g < i < g + 1 + |l.versionMarker| {
        assert t[i] == l.versionMarker[i - g - 1];
      } else if g + 1 + |l.versionMarker| <= i < h {
        assert t[i] == l.afterVersion[i - g - 1 - |l.versionMarker|];
      } else if h <= i < h + |l.head| {
        assert t[i] == l.head[i - h];
      } else if h + |l.head| <= i < a {
        assert t[i] == l.betweenHeadAndApp[i - h - |l.head|];
      } else if a <= i < a + |l.app| {
        assert t[i] == l.app[i - a];
      } else if a + |l.app| <= i < b {
        assert t[i] == l.betweenAppAndBody[i - a - |l.app|];
      } else if b <= i < b + |l.body| {
        assert t[i] == l.body[i - b];
      } else if b + |l.body| <= i {
        assert t[i] == l.docEnd[i - b - |l.body|];
      }
    }
  }

  /** The head placeholder sits between the text before and after it. */
  lemma RenderAtHead(l: Layout)
    ensures |BeforeHead(l)| == HeadAt(l)
    ensures Render(l)[..HeadAt(l)] == BeforeHead(l) && Render(l)[HeadAt(l)..] == l.head + AfterHead(l)
    ensures OccursAt(Render(l), l.head, HeadAt(l))
  {
    var t, h := Render(l), HeadAt(l);
    assert t[h..h + |l.head|] == (l.head + AfterHead(l))[..|l.head|];
  }

  lemma RenderAtApp(l: Layout)
    ensures OccursAt(Render(l), l.app, AppAt(l))
  {
    var front := BeforeHead(l) + l.head + l.betweenHeadAndApp;
    var back := l.betweenAppAndBody + l.body + l.docEnd;
    assert AfterHead(l) == l.betweenHeadAndApp + l.app + back;
    assert Render(l) == front + l.app + back;
  }

  lemma RenderAtBody(l: Layout)
    ensures OccursAt(Render(l), l.body, BodyAt(l))
  {
    var front := BeforeHead(l) + l.head + l.betweenHeadAndApp + l.app + l.betweenAppAndBody;
    assert AfterHead(l) == l.betweenHeadAndApp + l.app + l.betweenAppAndBody + l.body + l.docEnd;
    assert Render(l) == front + l.body + l.docEnd;
  }

  /** One differing character rules an occurrence out. */
  lemma Mismatch(s: string, p: string, k: int, m: nat)
    requires 0 <= k && k + m < |s| && m < |p| && s[k + m] != p[m]
    ensures !OccursAt(s, p, k)
  {
    assert k + |p| <= |s| ==> s[k..k + |p|][m] == s[k + m];
  }

  // In a separable layout each placeholder occurs exactly once, at its own place.

  /** The character four places before the generator's `@` ends the text before it. */
  lemma BeforeGenerator(l: Layout)
    requires |l.docStart| >= 4
    ensures Render(l)[GeneratorAt(l) - 4] == l.docStart[|l.docStart| - 4]
  {
  }

  /**
   The text `t` holds `head`, `app` and `body` at `h`, `a` and `b`, its only
   other `@` is at `g`, and the character four places before `g` is no `<`.
   */
  predicate Marked(t: string, g: int, h: nat, a: nat, b: nat, head: string, app: string, body: string)
  {
    && OccursAt(t, head, h) && OccursAt(t, app, a) && OccursAt(t, body, b)
    && (forall i :: 0 <= i < |t| && t[i] == '@' ==> i == g || i == h + 4 || i == a + 4 || i == b + 4)
    && 4 <= g < |t| && t[g - 4] != '<'
  }

  /** A separable layout's rendering marks its placeholders. */
  lemma RenderMarked(l: Layout)
    requires Separable(l)
    ensures Marked(Render(l), GeneratorAt(l), HeadAt(l), AppAt(l), BodyAt(l), l.head, l.app, l.body)
  {
    AtSigns(l);
    RenderAtHead(l);
    RenderAtApp(l);
    RenderAtBody(l);
    BeforeGenerator(l);
  }

  /**
   A placeholder `p` at `k`, in a text whose other `@` are those of `q` at
   `c`, of `r` at `d` and one at `g`, occurs only there when it differs
   from `q` and `r` at index 12 and does not open with the character four
   places before `g`.
   */
  lemma OneOnce(t: string, g: int, k: nat, c: nat, d: nat, p: string, q: string, r: string)
    requires PlaceholderShaped(p) && |q| > 12 && |r| > 12 && p[12] != q[12] && p[12] != r[12]
    requires OccursAt(t, p, k) && OccursAt(t, q, c) && OccursAt(t, r, d)
    requires forall i :: 0 <= i < |t| && t[i] == '@' ==> i == g || i == k + 4 || i == c + 4 || i == d + 4
    requires 4 <= g < |t| && t[g - 4] != '<'
    ensures OccursOnlyAt(t, p, k)
  {
    OccursChar(t, q, c, 12);
    OccursChar(t, r, d, 12);
    Mismatch(t, p, g - 4, 0);
    Mismatch(t, p, c, 12);
    Mismatch(t, p, d, 12);
    OnlyOccurrence(t, p, k, g, c + 4, d + 4);
  }

  /** In a separable layout each placeholder occurs exactly once, at its own place. */
  lemma PlaceholdersOnce(l: Layout)
    requires Separable(l)
    ensures OccursOnlyAt(Render(l), l.head, HeadAt(l))
    ensures OccursOnlyAt(Render(l), l.app, AppAt(l))
    ensures OccursOnlyAt(Render(l), l.body, BodyAt(l))
  {
    var t, g, h, a, b := Render(l), GeneratorAt(l), HeadAt(l), AppAt(l), BodyAt(l);
    RenderMarked(l);
    OneOnce(t, g, h, a, b, l.head, l.app, l.body);
    OneOnce(t, g, a, h, b, l.app, l.head, l.body);
    OneOnce(t, g, b, h, a, l.body, l.head, l.app);
  }

  // ---------------------------------------------------------------------------
  // What `readIndexHtmlFile` makes of a template
  // ---------------------------------------------------------------------------

  /** The layout after the dev edit: the insert ends the text before the head placeholder. */
  function DevLayout(l: Layout, dev: bool, insert: string): Layout
  {
    if dev then l.(afterVersion := l.afterVersion + insert) else l
  }

  /** `a + x + (h + b)` regrouped around `h`. */
  lemma Regroup(a: string, x: string, h: string, b: string)
    ensures a + x + (h + b) == (a + x) + h + b
  {
  }

  /** Growing the text before the head placeholder, as a concatenation. */
  lemma RenderGrown(l: Layout, x: string)
    ensures Render(l.(afterVersion := l.afterVersion + x)) == BeforeHead(l) + x + (l.head + AfterHead(l))
  {
    assert BeforeHead(l.(afterVersion := l.afterVersion + x)) == BeforeHead(l) + x;
    Regroup(BeforeHead(l), x, l.head, AfterHead(l));
  }

  /** Inserting in front of the head placeholder of a separable layout only grows the text before it. */
  lemma InsertOfRender(l: Layout, x: string)
    requires Separable(l)
    ensures InsertBefore(Render(l), l.head, x) == Render(l.(afterVersion := l.afterVersion + x))
  {
    var t := Render(l);
    PlaceholdersOnce(l);
    RenderAtHead(l);
    RenderGrown(l, x);
    var k :| OccursAt(t, l.head, k) && InsertBefore(t, l.head, x) == t[..k] + x + t[k..];
    assert k == HeadAt(l);
  }

  /**
   The version marker's first character appears neither in the text
   before the generator's `@` nor as that `@`.
   */
  predicate VersionFirst(l: Layout)
  {
    |l.versionMarker| > 0 && l.versionMarker[0] != '@' && l.versionMarker[0] !in l.docStart
  }

  /** A pattern whose first character is absent from `pre` cannot start inside it. */
  lemma NotInside(pre: string, pat: string)
    requires |pat| > 0 && pat[0] !in pre
    ensures !Contains(pre + pat[..|pat| - 1], pat)
  {
    var s := pre + pat[..|pat| - 1];
    forall k | 0 <= k <= |s| ensures !OccursAt(s, pat, k) {
      if k < |pre| {
        assert s[k] == pre[k];
        Mismatch(s, pat, k, 0);
      }
    }
  }

  /** The text after the version marker. */
  function AfterMarker(l: Layout): string
  {
    l.afterVersion + l.head + AfterHead(l)
  }

  /** A rendered layout cut around its version marker. */
  lemma RenderAtVersion(l: Layout)
    ensures Render(l) == (l.docStart + "@") + l.versionMarker + AfterMarker(l)
  {
  }

  /** Replacing the version marker in such a template replaces the generator's one. */
  lemma VersionOfRender(l: Layout, version: string)
    requires VersionFirst(l)
    ensures ReplaceFirst(Render(l), l.versionMarker, version) == Render(l.(versionMarker := version))
  {
    NotInside(l.docStart + "@", l.versionMarker);
    RenderAtVersion(l);
    RenderAtVersion(l.(versionMarker := version));
    ReplaceFirstAt(l.docStart + "@", l.versionMarker, AfterMarker(l), version);
  }

  /**
   `readIndexHtmlFile`'s edits on a separable template: the generator's
   version marker becomes the version, and in dev mode the insert goes in
   front of the head placeholder; nothing else changes.
   */
  lemma TransformRendered(l: Layout, dev: bool, version: string, insert: string)
    requires Separable(l) && VersionFirst(l)
    ensures Transform(Render(l), dev, version, l.head, insert, l.versionMarker)
            == Render(DevLayout(l, dev, insert).(versionMarker := version))
  {
    var l' := DevLayout(l, dev, insert);
    if dev {
      InsertOfRender(l, insert);
    }
    VersionOfRender(l', version);
  }

  // ---------------------------------------------------------------------------
  // The default template
  // ---------------------------------------------------------------------------

  lemma DoctypeScan()
    ensures '@' !in Doctype && '{' !in Doctype
  {
  }

  lemma CharsetMetaScan()
    ensures '@' !in CharsetMeta && '{' !in CharsetMeta
  {
  }

  lemma ViewportMetaScan()
    ensures '@' !in ViewportMeta && '{' !in ViewportMeta
  {
    ViewportMetaNoAt();
  }

  lemma ViewportMetaNoAt()
    ensures '@' !in ViewportMeta
  {
  }

  lemma GeneratorMetaScan()
    ensures '@' !in GeneratorMeta && '{' !in GeneratorMeta
    ensures GeneratorMeta[|GeneratorMeta| - 4] == 's'
  {
  }

  lemma BetweenHeadAndAppScan()
    ensures '@' !in BetweenHeadAndApp
  {
  }

  lemma PlaceholdersScan()
    ensures PlaceholderShaped(HeadPlaceholder) && PlaceholderShaped(AppPlaceholder) && PlaceholderShaped(BodyPlaceholder)
    ensures HeadPlaceholder[12] == 'h' && AppPlaceholder[12] == 'a' && BodyPlaceholder[12] == 'b'
  {
    assert HeadPlaceholder == "<!--@" + "vessel/head-->" && '@' !in "vessel/head-->";
    assert AppPlaceholder == "<!--@" + "vessel/app-->" && '@' !in "vessel/app-->";
    assert BodyPlaceholder == "<!--@" + "vessel/body-->" && '@' !in "vessel/body-->";
  }

  /** The default template meets both conditions. */
  lemma DefaultSeparable()
    ensures Separable(DefaultLayout) && VersionFirst(DefaultLayout)
  {
    DoctypeScan();
    CharsetMetaScan();
    ViewportMetaScan();
    GeneratorMetaScan();
    BetweenHeadAndAppScan();
    PlaceholdersScan();
    assert DocStart[|DocStart| - 4] == GeneratorMeta[|GeneratorMeta| - 4];
  }

  /** The default template holds each placeholder exactly once. */
  lemma DefaultPlaceholdersOnce()
    ensures OccursOnlyAt(DefaultIndexHtml, HeadPlaceholder, HeadAt(DefaultLayout))
    ensures OccursOnlyAt(DefaultIndexHtml, AppPlaceholder, AppAt(DefaultLayout))
    ensures OccursOnlyAt(DefaultIndexHtml, BodyPlaceholder, BodyAt(DefaultLayout))
  {
    DefaultSeparable();
    PlaceholdersOnce(DefaultLayout);
  }

  /**
   An app without its own `index.html` gets the default template with the
   version in the generator tag, the client script in front of the head
   placeholder in dev mode, and all three placeholders left for rendering.
   */
  lemma DefaultIndexHtmlRead(dev: bool, version: string)
    ensures ReadIndexHtml(None, dev, version)
            == Render(DevLayout(DefaultLayout, dev, DevClientScript + "\n\t").(versionMarker := version))
  {
    DefaultSeparable();
    TransformRendered(DefaultLayout, dev, version, DevClientScript + "\n\t");
  }

  lemma DevClientScriptScan()
    ensures '@' !in DevClientScript + "\n\t"
  {
  }

  /** Text without `@` added before the head placeholder or as the version keeps a layout separable. */
  lemma SeparableEdited(l: Layout, dev: bool, insert: string, version: string)
    requires Separable(l) && '@' !in insert && '@' !in version
    ensures Separable(DevLayout(l, dev, insert).(versionMarker := version))
  {
  }

  /**
   Whatever the mode, the HTML read for an app without its own `index.html`
   holds each placeholder exactly once, as long as the version holds no `@`.
   */
  lemma DefaultReadKeepsPlaceholders(dev: bool, version: string)
    requires '@' !in version
    ensures var r := ReadIndexHtml(None, dev, version);
            && (exists k :: OccursOnlyAt(r, HeadPlaceholder, k))
            && (exists k :: OccursOnlyAt(r, AppPlaceholder, k))
            && (exists k :: OccursOnlyAt(r, BodyPlaceholder, k))
  {
    var l := DevLayout(DefaultLayout, dev, DevClientScript + "\n\t").(versionMarker := version);
    DefaultIndexHtmlRead(dev, version);
    DefaultSeparable();
    DevClientScriptScan();
    SeparableEdited(DefaultLayout, dev, DevClientScript + "\n\t", version);
    PlaceholdersOnce(l);
  }
}
