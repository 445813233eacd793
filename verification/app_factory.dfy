/**
 The app factory (packages/app/src/node/app/create/app-factory.ts): which
 Vite plugins take part in the app and in what order, the check for the
 client and server entries, and the build entry map of route files.

 Vite's `mergeConfig`, the plugins' asynchronous `config` and
 `configureApp` hooks, and `trimExt` are outside the model; `trimExt`
 enters as a parameter.
 */
module AppFactory {

  import opened Wrappers
  import opened Seqs
  import opened OrderedMap
  import Routes

  // ---------------------------------------------------------------------------
  // Plugin selection and ordering
  // ---------------------------------------------------------------------------

  /** A plugin's `enforce` setting; `Unenforced` is an absent (falsy) value. */
  datatype Enforce = Pre | Unenforced | Post

  /** A Vite plugin: whether it carries a `vessel` key, and its `enforce`. */
  datatype Plugin = Plugin(name: string, hasVessel: bool, enforce: Enforce)

  /** An element of `viteConfig.plugins`: a falsy value, a plugin, or an array of elements. */
  datatype PluginOption = Falsy | One(plugin: Plugin) | Group(options: seq<PluginOption>)

  /** `plugins.flat()`: arrays are spliced in one level deep; deeper arrays stay elements. */
  function Flat(options: seq<PluginOption>): seq<PluginOption>
  {
    if |options| == 0 then []
    else (if options[0].Group? then options[0].options else [options[0]]) + Flat(options[1..])
  }

  /** `plugin && 'vessel' in plugin`: an array or a falsy value never passes. */
  predicate IsVesselOption(o: PluginOption)
  {
    o.One? && o.plugin.hasVessel
  }

  /** The plugins that pass the `vessel` filter, in order. */
  function KeepVessel(options: seq<PluginOption>): (r: seq<Plugin>)
    ensures forall p :: p in r <==> One(p) in options && p.hasVessel
    ensures |r| == CountIf(options, IsVesselOption)
  {
    if |options| == 0 then []
    else
      var rest := KeepVessel(options[1..]);
      assert forall o :: o in options <==> o == options[0] || o in options[1..];
      (if IsVesselOption(options[0]) then [options[0].plugin] else []) + rest
  }

  /** The filter works element by element: concatenated option lists keep their plugins in order. */
  lemma {:induction false} KeepVesselAppend(a: seq<PluginOption>, b: seq<PluginOption>)
    ensures KeepVessel(a + b) == KeepVessel(a) + KeepVessel(b)
  {
    if |a| == 0 {
      assert a + b == b;
    } else {
      assert (a + b)[1..] == a[1..] + b;
      KeepVesselAppend(a[1..], b);
    }
  }

  /** One option keeps its plugin exactly when it is a plugin with a `vessel` key. */
  lemma KeepVesselSingle(o: PluginOption)
    ensures KeepVessel([o]) == if o.One? && o.plugin.hasVessel then [o.plugin] else []
  {
    assert [o][1..] == [];
  }

  /** Flattening works element by element. */
  lemma {:induction false} FlatAppend(a: seq<PluginOption>, b: seq<PluginOption>)
    ensures Flat(a + b) == Flat(a) + Flat(b)
  {
    if |a| == 0 {
      assert a + b == b;
    } else {
      assert (a + b)[1..] == a[1..] + b;
      FlatAppend(a[1..], b);
    }
  }

  /**
   The app's plugins from concatenated option lists are those of each list in
   turn; an array element contributes the vessel plugins directly inside it
   and nothing from arrays nested deeper.
   */
  lemma VesselPluginsAppend(a: seq<PluginOption>, b: seq<PluginOption>)
    ensures VesselPlugins(a + b) == VesselPlugins(a) + VesselPlugins(b)
    ensures forall os :: VesselPlugins([Group(os)]) == KeepVessel(os)
  {
    FlatAppend(a, b);
    KeepVesselAppend(Flat(a), Flat(b));
    forall os ensures VesselPlugins([Group(os)]) == KeepVessel(os) {
      FlatGroup(os);
    }
  }

  lemma FlatGroup(os: seq<PluginOption>)
    ensures Flat([Group(os)]) == os
  {
    var single := [Group(os)];
    assert single[1..] == [];
    assert Flat(single) == os + Flat([]);
  }

  /** The app's plugins: the flattened option list with everything but vessel plugins dropped. */
  function VesselPlugins(options: seq<PluginOption>): (r: seq<Plugin>)
    ensures forall p :: p in r <==> One(p) in Flat(options) && p.hasVessel
  {
    KeepVessel(Flat(options))
  }

  /** Plugins with the given `enforce`. */
  function Enforced(e: Enforce): Plugin -> bool
  {
    (p: Plugin) => p.enforce == e
  }

  /** The group position: `pre` first, unenforced next, `post` last. */
  function Rank(e: Enforce): nat
  {
    match e
    case Pre => 0
    case Unenforced => 1
    case Post => 2
  }

  /**
   The plugin order: all `pre` plugins, then the unenforced ones, then all
   `post` plugins. The result is a rearrangement of the input, sorted by
   group, and within each group the input order is kept.
   */
  function OrderPlugins(ps: seq<Plugin>): (r: seq<Plugin>)
    ensures multiset(r) == multiset(ps)
    ensures forall i, j :: 0 <= i < j < |r| ==> Rank(r[i].enforce) <= Rank(r[j].enforce)
    ensures forall e :: Filter(r, Enforced(e)) == Filter(ps, Enforced(e))
  {
    var pre := Filter(ps, Enforced(Pre));
    var mid := Filter(ps, Enforced(Unenforced));
    var post := Filter(ps, Enforced(Post));
    GroupsPartition(ps);
    forall e ensures Filter(pre + mid + post, Enforced(e)) == Filter(ps, Enforced(e)) {
      GroupsStable(ps, e);
    }
    GroupsSorted(pre, mid, post);
    pre + mid + post
  }

  /** Groups of rank 0, 1 and 2 placed one after another are sorted by rank. */
  lemma GroupsSorted(pre: seq<Plugin>, mid: seq<Plugin>, post: seq<Plugin>)
    requires forall i :: 0 <= i < |pre| ==> Enforced(Pre)(pre[i])
    requires forall i :: 0 <= i < |mid| ==> Enforced(Unenforced)(mid[i])
    requires forall i :: 0 <= i < |post| ==> Enforced(Post)(post[i])
    ensures var r := pre + mid + post;
      forall i, j :: 0 <= i < j < |r| ==> Rank(r[i].enforce) <= Rank(r[j].enforce)
  {
    var r := pre + mid + post;
    forall i, j | 0 <= i < j < |r|
      ensures Rank(r[i].enforce) <= Rank(r[j].enforce)
    {
      if j < |pre| {
      } else if i < |pre| {
      } else if j < |pre| + |mid| {
        assert r[i] == mid[i - |pre|] && r[j] == mid[j - |pre|];
      } else if i < |pre| + |mid| {
      } else {
        assert r[i] == post[i - |pre| - |mid|] && r[j] == post[j - |pre| - |mid|];
      }
    }
  }

  /** The three groups together hold every plugin exactly as often as the input. */
  lemma {:induction false} GroupsPartition(ps: seq<Plugin>)
    ensures multiset(Filter(ps, Enforced(Pre))) + multiset(Filter(ps, Enforced(Unenforced)))
            + multiset(Filter(ps, Enforced(Post))) == multiset(ps)
  {
    if |ps| > 0 {
      GroupsPartition(ps[1..]);
      assert ps == [ps[0]] + ps[1..];
      var x, rest := ps[0], ps[1..];
      forall g ensures multiset(Filter(ps, Enforced(g)))
                       == (if x.enforce == g then multiset{x} else multiset{}) + multiset(Filter(rest, Enforced(g))) {
        if x.enforce == g {
          assert Filter(ps, Enforced(g)) == [x] + Filter(rest, Enforced(g));
        }
      }
    }
  }

  /** Filtering one group by another group's `enforce` leaves nothing; by its own, the whole group. */
  lemma GroupFilter(ps: seq<Plugin>, g: Enforce, e: Enforce)
    ensures Filter(Filter(ps, Enforced(g)), Enforced(e)) == if g == e then Filter(ps, Enforced(e)) else []
  {
    if g == e {
      FilterIdempotent(ps, Enforced(e));
    } else {
      FilterNone(Filter(ps, Enforced(g)), Enforced(e));
    }
  }

  lemma GroupsStable(ps: seq<Plugin>, e: Enforce)
    ensures Filter(Filter(ps, Enforced(Pre)) + Filter(ps, Enforced(Unenforced)) + Filter(ps, Enforced(Post)), Enforced(e))
            == Filter(ps, Enforced(e))
  {
    var pre := Filter(ps, Enforced(Pre));
    var mid := Filter(ps, Enforced(Unenforced));
    var post := Filter(ps, Enforced(Post));
    var f := Enforced(e);
    FilterAppend(pre + mid, post, f);
    FilterAppend(pre, mid, f);
    assert Filter(pre + mid + post, f) == Filter(pre, f) + Filter(mid, f) + Filter(post, f);
    GroupFilter(ps, Pre, e);
    GroupFilter(ps, Unenforced, e);
    GroupFilter(ps, Post, e);
    match e {
      case Pre => assert Filter(mid, f) == [] && Filter(post, f) == [];
      case Unenforced => assert Filter(pre, f) == [] && Filter(post, f) == [];
      case Post => assert Filter(pre, f) == [] && Filter(mid, f) == [];
    }
  }

  /** The plugin list the factory works with. */
  function AppPlugins(options: seq<PluginOption>): (r: seq<Plugin>)
    ensures forall p :: p in r <==> One(p) in Flat(options) && p.hasVessel
    ensures multiset(r) == multiset(VesselPlugins(options))
    ensures forall i, j :: 0 <= i < j < |r| ==> Rank(r[i].enforce) <= Rank(r[j].enforce)
    ensures forall e :: Filter(r, Enforced(e)) == Filter(VesselPlugins(options), Enforced(e))
  {
    var r := OrderPlugins(VesselPlugins(options));
    assert forall p :: p in r <==> p in VesselPlugins(options) by {
      forall p ensures p in r <==> p in VesselPlugins(options) {
        assert p in r <==> p in multiset(r);
      }
    }
    r
  }

  // ---------------------------------------------------------------------------
  // The entry check in `create`
  // ---------------------------------------------------------------------------

  /** `config.entry` after the plugins' config hooks ran; `None` is an unset entry. */
  datatype Entry = Entry(client: Option<string>, server: Option<string>)

  predicate Falsy(s: Option<string>)
  {
    s.None? || s.value == ""
  }

  /**
   `create` stops with a "Missing client/server entries" error exactly when
   either entry is unset or empty; otherwise it goes on to the plugins'
   `configureApp` hooks.
   */
  function MissingEntries(entry: Entry): (r: bool)
    ensures r <==> entry.client.None? || entry.server.None? || entry.client == Some("") || entry.server == Some("")
  {
    Falsy(entry.client) || Falsy(entry.server)
  }

  // ---------------------------------------------------------------------------
  // createAppEntries
  // ---------------------------------------------------------------------------

  /** A route file: its role, its path relative to the app root and its absolute path. */
  datatype AppFile = AppFile(kind: Routes.FileType, rootPath: string, path: string)

  /** `trimExt(path)`. */
  type TrimExt = string -> string

  /** A file takes part unless it is an http file of a non-SSR build. */
  predicate Included(ssr: bool, f: AppFile)
  {
    ssr || f.kind != Routes.Http
  }

  function EntryKey(trimExt: TrimExt, f: AppFile): string
  {
    "nodes/" + trimExt(f.rootPath)
  }

  function EntryPairs(files: seq<AppFile>, trimExt: TrimExt): (r: seq<(string, string)>)
    ensures |r| == |files| && forall i :: 0 <= i < |files| ==> r[i] == (EntryKey(trimExt, files[i]), files[i].path)
  {
    seq(|files|, i requires 0 <= i < |files| => (EntryKey(trimExt, files[i]), files[i].path))
  }

  /** The route files `createAppEntries` walks. */
  function IncludedFiles(files: seq<AppFile>, ssr: bool): (r: seq<AppFile>)
    ensures forall f :: f in r <==> f in files && Included(ssr, f)
  {
    if ssr then files else Filter(files, (f: AppFile) => Included(false, f))
  }

  /** The object built from the pairs: a key for each file, the last file's path under it. */
  lemma EntriesOfPairs(files: seq<AppFile>, trimExt: TrimExt, k: string)
    ensures HasKey(FromPairs(EntryPairs(files, trimExt)), k) <==> exists f :: f in files && EntryKey(trimExt, f) == k
    ensures HasKey(FromPairs(EntryPairs(files, trimExt)), k) ==>
              exists f :: f in files && EntryKey(trimExt, f) == k && Get(FromPairs(EntryPairs(files, trimExt)), k) == Some(f.path)
  {
    var ps := EntryPairs(files, trimExt);
    if exists f :: f in files && EntryKey(trimExt, f) == k {
      var f :| f in files && EntryKey(trimExt, f) == k;
      var j :| 0 <= j < |files| && files[j] == f;
      assert ps[j].0 == k;
      assert LastValue(ps, k).Some?;
    }
    if LastValue(ps, k).Some? {
      var j := LastValueIndex(ps, k);
      assert files[j] in files;
    }
  }

  /**
   `createAppEntries(app, { isSSR })`: an object from `nodes/<root path
   without extension>` to the file's path, over all route files when SSR is
   set by the option or the config, and over the non-http files otherwise.
   A key names exactly the included files that map to it, and its value is
   the path of one of them (the last assigned).
   */
  function AppEntries(files: seq<AppFile>, isSsrOption: bool, configIsSsr: bool, trimExt: TrimExt): (r: Entries<string>)
    ensures UniqueKeys(r)
    ensures forall k :: HasKey(r, k) <==>
              exists f :: f in files && Included(isSsrOption || configIsSsr, f) && EntryKey(trimExt, f) == k
    ensures forall k :: HasKey(r, k) ==>
              exists f :: f in files && Included(isSsrOption || configIsSsr, f)
                          && EntryKey(trimExt, f) == k && Get(r, k) == Some(f.path)
  {
    var included := IncludedFiles(files, isSsrOption || configIsSsr);
    forall k {
      EntriesOfPairs(included, trimExt, k);
    }
    FromPairs(EntryPairs(included, trimExt))
  }

  /** Without SSR no http file contributes an entry: every value is the path of a component file. */
  lemma NoHttpEntriesWithoutSsr(files: seq<AppFile>, trimExt: TrimExt, k: string)
    requires HasKey(AppEntries(files, false, false, trimExt), k)
    ensures exists f :: f in files && f.kind != Routes.Http
                        && Get(AppEntries(files, false, false, trimExt), k) == Some(f.path)
  {
    var r := AppEntries(files, false, false, trimExt);
    var f :| f in files && Included(false, f) && EntryKey(trimExt, f) == k && Get(r, k) == Some(f.path);
  }
}
