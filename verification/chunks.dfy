/**
 Build-time analysis of the bundler output (packages/app/src/node/build/chunks.ts):
 splitting the bundle into chunks and assets, matching route files to the
 server chunks built from them, the HTTP methods an endpoint exports, the
 vendor chunk naming rule, and the classification of routes into edge,
 node and deoptimized ones.

 A chunk is reduced to what these functions read: its file name, the module
 it was built from (`facadeModuleId`) and its export names.
 */
module Chunks {

  import opened Wrappers
  import opened Strings
  import opened Seqs
  import opened OrderedMap
  import opened Routes

  datatype Chunk = Chunk(fileName: string, facadeModuleId: Option<string>, exports: seq<string>)

  datatype Asset = Asset(fileName: string)

  /** A value of the bundle object: `type: 'chunk'` or `type: 'asset'`. */
  datatype BundleValue = ChunkValue(chunk: Chunk) | AssetValue(asset: Asset)

  predicate IsChunkValue(v: BundleValue)
  {
    v.ChunkValue?
  }

  predicate IsAssetValue(v: BundleValue)
  {
    v.AssetValue?
  }

  function ChunksOf(vs: seq<BundleValue>): (r: seq<Chunk>)
    requires forall i :: 0 <= i < |vs| ==> vs[i].ChunkValue?
    ensures |r| == |vs| && forall i :: 0 <= i < |r| ==> r[i] == vs[i].chunk
  {
    if |vs| == 0 then [] else [vs[0].chunk] + ChunksOf(vs[1..])
  }

  function AssetsOf(vs: seq<BundleValue>): (r: seq<Asset>)
    requires forall i :: 0 <= i < |vs| ==> vs[i].AssetValue?
    ensures |r| == |vs| && forall i :: 0 <= i < |r| ==> r[i] == vs[i].asset
  {
    if |vs| == 0 then [] else [vs[0].asset] + AssetsOf(vs[1..])
  }

  lemma ChunksOfAppend(a: seq<BundleValue>, b: seq<BundleValue>)
    requires forall i :: 0 <= i < |a| ==> a[i].ChunkValue?
    requires forall i :: 0 <= i < |b| ==> b[i].ChunkValue?
    ensures ChunksOf(a + b) == ChunksOf(a) + ChunksOf(b)
  {
    var l, r := ChunksOf(a + b), ChunksOf(a) + ChunksOf(b);
    assert |l| == |r|;
    forall i | 0 <= i < |l| ensures l[i] == r[i] {
      if i < |a| { assert (a + b)[i] == a[i]; } else { assert (a + b)[i] == b[i - |a|]; }
    }
  }

  lemma AssetsOfAppend(a: seq<BundleValue>, b: seq<BundleValue>)
    requires forall i :: 0 <= i < |a| ==> a[i].AssetValue?
    requires forall i :: 0 <= i < |b| ==> b[i].AssetValue?
    ensures AssetsOf(a + b) == AssetsOf(a) + AssetsOf(b)
  {
    var l, r := AssetsOf(a + b), AssetsOf(a) + AssetsOf(b);
    assert |l| == |r|;
    forall i | 0 <= i < |l| ensures l[i] == r[i] {
      if i < |a| { assert (a + b)[i] == a[i]; } else { assert (a + b)[i] == b[i - |a|]; }
    }
  }

  /** One more value extends the chunk list by that value when it is a chunk. */
  lemma ChunksStep(values: seq<BundleValue>, i: nat)
    requires i < |values|
    ensures ChunksOf(Filter(values[..i + 1], IsChunkValue))
            == ChunksOf(Filter(values[..i], IsChunkValue)) + (if values[i].ChunkValue? then [values[i].chunk] else [])
  {
    assert values[..i + 1] == values[..i] + [values[i]];
    FilterAppend(values[..i], [values[i]], IsChunkValue);
    ChunksOfAppend(Filter(values[..i], IsChunkValue), Filter([values[i]], IsChunkValue));
  }

  /** One more value extends the asset list by that value when it is an asset. */
  lemma AssetsStep(values: seq<BundleValue>, i: nat)
    requires i < |values|
    ensures AssetsOf(Filter(values[..i + 1], IsAssetValue))
            == AssetsOf(Filter(values[..i], IsAssetValue)) + (if values[i].AssetValue? then [values[i].asset] else [])
  {
    assert values[..i + 1] == values[..i] + [values[i]];
    FilterAppend(values[..i], [values[i]], IsAssetValue);
    AssetsOfAppend(Filter(values[..i], IsAssetValue), Filter([values[i]], IsAssetValue));
  }

  /** `resolveChunks(bundle)` over `Object.values(bundle)`: the chunks, in order. */
  method ResolveChunks(values: seq<BundleValue>) returns (chunks: seq<Chunk>)
    ensures chunks == ChunksOf(Filter(values, IsChunkValue))
  {
    chunks := [];
    var i := 0;
    while i < |values|
      invariant 0 <= i <= |values|
      invariant chunks == ChunksOf(Filter(values[..i], IsChunkValue))
    {
      ChunksStep(values, i);
      if values[i].ChunkValue? {
        chunks := chunks + [values[i].chunk];
      }
      i := i + 1;
    }
    assert values[..i] == values;
  }

  /** The chunks of `vs` in order, built from the back as the scan builds them. */
  function ChunkList(vs: seq<BundleValue>): seq<Chunk>
  {
    if |vs| == 0 then []
    else ChunkList(vs[..|vs| - 1]) + (if vs[|vs| - 1].ChunkValue? then [vs[|vs| - 1].chunk] else [])
  }

  /** The assets of `vs` in order, built from the back as the scan builds them. */
  function AssetList(vs: seq<BundleValue>): seq<Asset>
  {
    if |vs| == 0 then []
    else AssetList(vs[..|vs| - 1]) + (if vs[|vs| - 1].AssetValue? then [vs[|vs| - 1].asset] else [])
  }

  /** The scan's chunk list is the filtered chunk values. */
  lemma {:induction false} ChunkListIsFilter(vs: seq<BundleValue>)
    ensures ChunkList(vs) == ChunksOf(Filter(vs, IsChunkValue))
    decreases |vs|
  {
    if |vs| > 0 {
      ChunkListIsFilter(vs[..|vs| - 1]);
      ChunksStep(vs, |vs| - 1);
      assert vs[..|vs|] == vs;
    }
  }

  /** The scan's asset list is the filtered asset values. */
  lemma {:induction false} AssetListIsFilter(vs: seq<BundleValue>)
    ensures AssetList(vs) == AssetsOf(Filter(vs, IsAssetValue))
    decreases |vs|
  {
    if |vs| > 0 {
      AssetListIsFilter(vs[..|vs| - 1]);
      AssetsStep(vs, |vs| - 1);
      assert vs[..|vs|] == vs;
    }
  }

  /**
   `resolveChunksAndAssets(bundle)`: every value lands in exactly one list,
   in `assets` iff it is an asset, order kept within each list.
   */
  method ResolveChunksAndAssets(values: seq<BundleValue>) returns (chunks: seq<Chunk>, assets: seq<Asset>)
    ensures chunks == ChunksOf(Filter(values, IsChunkValue))
    ensures assets == AssetsOf(Filter(values, IsAssetValue))
  {
    chunks, assets := [], [];
    var i := 0;
    while i < |values|
      invariant 0 <= i <= |values|
      invariant chunks == ChunkList(values[..i])
      invariant assets == AssetList(values[..i])
    {
      assert values[..i + 1][..i] == values[..i];
      if values[i].AssetValue? {
        assets := assets + [values[i].asset];
      } else {
        chunks := chunks + [values[i].chunk];
      }
      i := i + 1;
    }
    assert values[..i] == values;
    ChunkListIsFilter(values);
    AssetListIsFilter(values);
  }

  /** Every value is a chunk or an asset, never both: the two lists together have one element per value. */
  lemma {:induction false} PartitionSizes(values: seq<BundleValue>)
    ensures |Filter(values, IsChunkValue)| + |Filter(values, IsAssetValue)| == |values|
  {
    if |values| > 0 {
      PartitionSizes(values[1..]);
    }
  }

  // ---------------------------------------------------------------------------
  // Matching files to chunks
  // ---------------------------------------------------------------------------

  /** `chunks[i]` is the first chunk whose facade module is `path`. */
  predicate FirstFacadeAt(chunks: seq<Chunk>, path: string, i: int)
  {
    0 <= i < |chunks| && chunks[i].facadeModuleId == Some(path)
    && forall j :: 0 <= j < i ==> chunks[j].facadeModuleId != Some(path)
  }

  /** `serverChunks.find((chunk) => chunk.facadeModuleId === path)`. */
  function FindChunk(chunks: seq<Chunk>, path: string): (r: Option<Chunk>)
    ensures r.Some? <==> exists i :: 0 <= i < |chunks| && chunks[i].facadeModuleId == Some(path)
    ensures r.Some? ==> r.value in chunks && r.value.facadeModuleId == Some(path)
  {
    if |chunks| == 0 then None
    else if chunks[0].facadeModuleId == Some(path) then Some(chunks[0])
    else
      var r := FindChunk(chunks[1..], path);
      assert forall i :: 1 <= i < |chunks| ==> chunks[i] == chunks[1..][i - 1];
      r
  }

  /** The chunk `find` returns is the first one built from the path. */
  lemma {:induction false} FindChunkFirst(chunks: seq<Chunk>, path: string)
    ensures FindChunk(chunks, path).Some? ==>
              exists i :: FirstFacadeAt(chunks, path, i) && chunks[i] == FindChunk(chunks, path).value
  {
    if |chunks| > 0 {
      if chunks[0].facadeModuleId == Some(path) {
        assert FirstFacadeAt(chunks, path, 0);
      } else {
        FindChunkFirst(chunks[1..], path);
        if FindChunk(chunks, path).Some? {
          var i :| FirstFacadeAt(chunks[1..], path, i) && chunks[1..][i] == FindChunk(chunks[1..], path).value;
          assert FirstFacadeAt(chunks, path, i + 1);
        }
      }
    }
  }

  /** A server configuration file (`app.files.serverConfigs`). */
  datatype ServerConfigFile = ServerConfigFile(kind: string, path: string)

  /** The `(kind, chunk)` assignments the configuration loop performs, in order. */
  function FoundConfigChunks(configs: seq<ServerConfigFile>, serverChunks: seq<Chunk>): seq<(string, Chunk)>
    decreases |configs|
  {
    if |configs| == 0 then []
    else
      var rest := FoundConfigChunks(configs[..|configs| - 1], serverChunks);
      match FindChunk(serverChunks, configs[|configs| - 1].path)
      case Some(c) => rest + [(configs[|configs| - 1].kind, c)]
      case None => rest
  }

  /** An assignment is made for exactly the files whose path has a chunk, with that chunk. */
  lemma {:induction false} FoundConfigChunksMembers(configs: seq<ServerConfigFile>, serverChunks: seq<Chunk>)
    ensures forall p :: p in FoundConfigChunks(configs, serverChunks) <==>
              exists i :: 0 <= i < |configs| && configs[i].kind == p.0 && FindChunk(serverChunks, configs[i].path) == Some(p.1)
    decreases |configs|
  {
    if |configs| > 0 {
      var init := configs[..|configs| - 1];
      FoundConfigChunksMembers(init, serverChunks);
      assert forall i :: 0 <= i < |init| ==> init[i] == configs[i];
    }
  }

  /**
   `resolveServerConfigChunks`: each configuration kind maps to the chunk built
   from the last file of that kind that has one; a file without a chunk
   leaves the entry alone.
   */
  method ResolveServerConfigChunks(configs: seq<ServerConfigFile>, serverChunks: seq<Chunk>)
    returns (r: Entries<Chunk>)
    ensures UniqueKeys(r)
    ensures forall k :: Get(r, k) == LastValue(FoundConfigChunks(configs, serverChunks), k)
  {
    r := [];
    var i := 0;
    while i < |configs|
      invariant 0 <= i <= |configs|
      invariant UniqueKeys(r)
      invariant forall k :: Get(r, k) == LastValue(FoundConfigChunks(configs[..i], serverChunks), k)
    {
      ConfigStep(configs, serverChunks, i, r);
      r := StoreChunk(r, configs[i].kind, FindChunk(serverChunks, configs[i].path));
      i := i + 1;
    }
    assert configs[..i] == configs;
  }

  /** `if (chunk) configs[kind] = chunk`. */
  function StoreChunk(r: Entries<Chunk>, kind: string, chunk: Option<Chunk>): Entries<Chunk>
  {
    if chunk.Some? then Put(r, kind, chunk.value) else r
  }

  /** One iteration of the configuration loop keeps the object in step with the assignments. */
  lemma ConfigStep(configs: seq<ServerConfigFile>, serverChunks: seq<Chunk>, i: nat, r: Entries<Chunk>)
    requires i < |configs| && UniqueKeys(r)
    requires forall k :: Get(r, k) == LastValue(FoundConfigChunks(configs[..i], serverChunks), k)
    ensures UniqueKeys(StoreChunk(r, configs[i].kind, FindChunk(serverChunks, configs[i].path)))
    ensures forall k :: Get(StoreChunk(r, configs[i].kind, FindChunk(serverChunks, configs[i].path)), k)
                        == LastValue(FoundConfigChunks(configs[..i + 1], serverChunks), k)
  {
    FoundConfigStep(configs, serverChunks, i);
    var chunk := FindChunk(serverChunks, configs[i].path);
    if chunk.Some? {
      PutFound(FoundConfigChunks(configs[..i], serverChunks), r, configs[i].kind, chunk.value);
    }
  }

  /** One more configuration file adds its assignment, if it has a chunk. */
  lemma FoundConfigStep(configs: seq<ServerConfigFile>, serverChunks: seq<Chunk>, i: nat)
    requires i < |configs|
    ensures FindChunk(serverChunks, configs[i].path).None? ==>
              FoundConfigChunks(configs[..i + 1], serverChunks) == FoundConfigChunks(configs[..i], serverChunks)
    ensures FindChunk(serverChunks, configs[i].path).Some? ==>
              FoundConfigChunks(configs[..i + 1], serverChunks)
              == FoundConfigChunks(configs[..i], serverChunks) + [(configs[i].kind, FindChunk(serverChunks, configs[i].path).value)]
  {
    assert configs[..i + 1][..i] == configs[..i];
  }

  /** Storing an assignment keeps the object in step with the assignments made so far. */
  lemma PutFound(found: seq<(string, Chunk)>, r: Entries<Chunk>, kind: string, c: Chunk)
    requires UniqueKeys(r) && forall k :: Get(r, k) == LastValue(found, k)
    ensures UniqueKeys(Put(r, kind, c))
    ensures forall k :: Get(Put(r, kind, c), k) == LastValue(found + [(kind, c)], k)
  {
    forall k ensures Get(Put(r, kind, c), k) == LastValue(found + [(kind, c)], k) {
      LastValueAppend(found, (kind, c), k);
    }
  }

  /** The chunks and chunk files of one route's slots. */
  datatype RouteChunks = RouteChunks(chunks: map<FileType, Chunk>, files: map<FileType, string>)

  /**
   The inner loop of `resolveServerRouteChunks` for one route: a populated
   slot gets the chunk built from its file, if any, and that chunk's file
   resolved in the server output directory (`resolveServer`).
   */
  function SlotChunks(route: AppRoute, serverChunks: seq<Chunk>, resolveServer: string -> string): (r: RouteChunks)
    ensures forall t :: t in r.chunks <==> t in route.slots && FindChunk(serverChunks, route.slots[t].absolute).Some?
    ensures r.files.Keys == r.chunks.Keys
    ensures forall t :: t in r.chunks ==> (Some(r.chunks[t]) == FindChunk(serverChunks, route.slots[t].absolute)
                                          && r.files[t] == resolveServer(r.chunks[t].fileName))
  {
    var found := map t | t in route.slots && FindChunk(serverChunks, route.slots[t].absolute).Some?
                       :: FindChunk(serverChunks, route.slots[t].absolute).value;
    RouteChunks(found, map t | t in found :: resolveServer(found[t].fileName))
  }

  predicate UniqueIds(routes: seq<AppRoute>)
  {
    forall i, j :: 0 <= i < j < |routes| ==> routes[i].info.id != routes[j].info.id
  }

  /**
   `resolveServerRouteChunks`: one entry per route id, in table order (a
   `Map` keyed by id, so a repeated id keeps the later route's value).
   */
  function ResolveServerRouteChunks(routes: seq<AppRoute>, serverChunks: seq<Chunk>, resolveServer: string -> string)
    : (r: Entries<RouteChunks>)
    ensures UniqueKeys(r)
    ensures forall k :: HasKey(r, k) <==> exists i :: 0 <= i < |routes| && routes[i].info.id == k
    ensures UniqueIds(routes) ==> forall i :: 0 <= i < |routes| ==>
              Get(r, routes[i].info.id) == Some(SlotChunks(routes[i], serverChunks, resolveServer))
  {
    var pairs := seq(|routes|, i requires 0 <= i < |routes| => (routes[i].info.id, SlotChunks(routes[i], serverChunks, resolveServer)));
    var r := FromPairs(pairs);
    forall i | 0 <= i < |routes| && UniqueIds(routes)
      ensures Get(r, routes[i].info.id) == Some(SlotChunks(routes[i], serverChunks, resolveServer))
    {
      assert UniqueKeys(pairs);
      LastValueUnique(pairs, i);
    }
    forall k ensures HasKey(r, k) <==> exists i :: 0 <= i < |routes| && routes[i].info.id == k {
      if HasKey(r, k) {
        assert LastValue(pairs, k).Some?;
        var i :| 0 <= i < |pairs| && pairs[i].0 == k;
        assert routes[i].info.id == k;
      }
      if exists i :: 0 <= i < |routes| && routes[i].info.id == k {
        var i :| 0 <= i < |routes| && routes[i].info.id == k;
        assert pairs[i].0 == k;
        assert LastValue(pairs, k).Some?;
      }
    }
    r
  }

  // ---------------------------------------------------------------------------
  // HTTP methods of an endpoint
  // ---------------------------------------------------------------------------

  /**
   `resolveApiChunkMethods`: the methods of `allMethods` (the framework's
   ordered method list) that the endpoint chunk of the route exports, as
   mapped by `resolveMethod` (`resolveHandlerHttpMethod`). Without an entry
   or an endpoint chunk the result is empty.
   */
  function ResolveApiChunkMethods(routeId: string, chunks: Entries<RouteChunks>, allMethods: seq<string>,
                                  resolveMethod: string -> Option<string>): (r: seq<string>)
    ensures IsSubseq(r, allMethods)
    ensures NoDuplicates(allMethods) ==> NoDuplicates(r)
    ensures (Get(chunks, routeId).None? || Http !in Get(chunks, routeId).value.chunks) ==> r == []
    ensures Get(chunks, routeId).Some? && Http in Get(chunks, routeId).value.chunks ==>
              forall m :: m in r <==> (m in allMethods &&
                exists e :: e in Get(chunks, routeId).value.chunks[Http].exports && resolveMethod(e) == Some(m))
  {
    var methods := match Get(chunks, routeId)
      case Some(rc) =>
        if Http in rc.chunks then HandlerMethods(rc.chunks[Http].exports, resolveMethod) else []
      case None => [];
    var r := Filter(allMethods, (m: string) => m in methods);
    FilterIsSubseq(allMethods, (m: string) => m in methods);
    SubseqNoDuplicates(r, allMethods);
    assert methods == [] ==> r == [] by {
      if methods == [] {
        FilterNone(allMethods, (m: string) => m in methods);
      }
    }
    r
  }

  /** `exports.map(resolveHandlerHttpMethod).filter(isString)`. */
  function HandlerMethods(exports: seq<string>, resolveMethod: string -> Option<string>): (r: seq<string>)
    ensures forall m :: m in r <==> exists e :: e in exports && resolveMethod(e) == Some(m)
  {
    if |exports| == 0 then []
    else
      var rest := HandlerMethods(exports[1..], resolveMethod);
      assert forall e :: e in exports <==> e == exports[0] || e in exports[1..];
      match resolveMethod(exports[0])
      case Some(m) => [m] + rest
      case None => rest
  }

  /** A subsequence of a duplicate-free sequence is duplicate-free. */
  lemma {:induction false} SubseqNoDuplicates(a: seq<string>, b: seq<string>)
    requires IsSubseq(a, b)
    ensures NoDuplicates(b) ==> NoDuplicates(a)
    decreases |b|
  {
    if |a| > 0 && NoDuplicates(b) {
      assert NoDuplicates(b[1..]) by {
        forall i, j | 0 <= i < j < |b[1..]| ensures b[1..][i] != b[1..][j] {
          assert b[1..][i] == b[i + 1] && b[1..][j] == b[j + 1];
        }
      }
      if a[0] == b[0] && IsSubseq(a[1..], b[1..]) {
        SubseqNoDuplicates(a[1..], b[1..]);
        SubseqMembers(a[1..], b[1..]);
        forall i, j | 0 <= i < j < |a| ensures a[i] != a[j] {
          if i == 0 {
            assert a[j] == a[1..][j - 1];
            assert a[j] in b[1..];
            assert b[0] !in b[1..] by {
              forall k | 0 <= k < |b[1..]| ensures b[1..][k] != b[0] { assert b[1..][k] == b[k + 1]; }
            }
          } else {
            assert a[i] == a[1..][i - 1] && a[j] == a[1..][j - 1];
          }
        }
      } else {
        SubseqNoDuplicates(a, b[1..]);
      }
    }
  }

  // ---------------------------------------------------------------------------
  // Vendor chunks
  // ---------------------------------------------------------------------------

  /**
   `/\/@?<name>\//.test(id) && !/@?<name>\/node_modules/.test(id)`: the id
   goes through the package directory and not through a nested
   `node_modules` inside it.
   */
  predicate InPackage(id: string, name: string)
  {
    (Contains(id, "/" + name + "/") || Contains(id, "/@" + name + "/")) && !Contains(id, name + "/node_modules")
  }

  /** The Vessel packages: `/\/@vessel-js/` without `/@vessel-js\/node_modules/`. */
  predicate InVesselPackage(id: string)
  {
    Contains(id, "/@vessel-js") && !Contains(id, "@vessel-js/node_modules")
  }

  /** The manual-chunk function returned by `extendManualChunks()`. */
  function ManualChunk(id: string): (r: Option<string>)
    // `vite/` wins over everything
    ensures Contains(id, "vite/") ==> r == Some("vite")
    // outside `node_modules` there is no vendor chunk
    ensures !Contains(id, "vite/") && !Contains(id, "node_modules") ==> r == None
    ensures r.Some? ==> r.value in {"vite", "svelte", "vue", "react", "solid", "vessel"}
  {
    if Contains(id, "vite/") then Some("vite")
    else if Contains(id, "node_modules") then
      if InPackage(id, "svelte") then Some("svelte")
      else if InPackage(id, "vue") then Some("vue")
      else if InPackage(id, "react") then Some("react")
      else if InPackage(id, "solid-js") then Some("solid")
      else if InVesselPackage(id) then Some("vessel")
      else None
    else None
  }

  /** The vendor rules in priority order: chunk name and the test for an id. */
  function VendorRule(k: nat, id: string): (string, bool)
    requires k < 5
  {
    [("svelte", InPackage(id, "svelte")), ("vue", InPackage(id, "vue")), ("react", InPackage(id, "react")),
     ("solid", InPackage(id, "solid-js")), ("vessel", InVesselPackage(id))][k]
  }

  /** The first rule from `k` on that matches `id`. */
  function FirstVendor(id: string, k: nat): (r: Option<string>)
    requires k <= 5
    decreases 5 - k
  {
    if k == 5 then None
    else if VendorRule(k, id).1 then Some(VendorRule(k, id).0)
    else FirstVendor(id, k + 1)
  }

  /**
   Inside `node_modules` (and not under `vite/`) the chunk is named by the
   first rule, in the order svelte, vue, react, solid, vessel, that matches.
   */
  lemma ManualChunkIsFirstMatchingRule(id: string)
    requires !Contains(id, "vite/") && Contains(id, "node_modules")
    ensures ManualChunk(id) == FirstVendor(id, 0)
    ensures ManualChunk(id).Some? <==> exists k :: 0 <= k < 5 && VendorRule(k, id).1
  {
    if !(exists k :: 0 <= k < 5 && VendorRule(k, id).1) {
      assert !VendorRule(0, id).1 && !VendorRule(1, id).1 && !VendorRule(2, id).1;
      assert !VendorRule(3, id).1 && !VendorRule(4, id).1;
    }
  }

  // ---------------------------------------------------------------------------
  // Edge, node and deoptimized routes (`resolveServerRoutes`)
  // ---------------------------------------------------------------------------

  /** The server route chunks by route id (`build.bundles.server.routes.chunks`). */
  type ChunkTable = map<string, RouteChunks>

  /** Export names of the chunk of slot `t` of the route with id `id`; none when there is no such chunk. */
  function Exports(table: ChunkTable, id: string, t: FileType): seq<string>
  {
    if id in table && t in table[id].chunks then table[id].chunks[t].exports else []
  }

  /** A component slot whose chunk exports `serverLoader`. */
  predicate HasServerLoader(table: ChunkTable, route: AppRoute, t: FileType)
  {
    t in route.slots && t != Http && "serverLoader" in Exports(table, route.info.id, t)
  }

  predicate ExportsEdge(table: ChunkTable, route: AppRoute, t: FileType)
  {
    "EDGE" in Exports(table, route.info.id, t)
  }

  /** The `serverLoader` record of a route: the component types whose chunk exports one. */
  function LoaderTypes(table: ChunkTable, route: AppRoute): (r: set<FileType>)
    ensures forall t :: t in r <==> HasServerLoader(table, route, t)
  {
    set t | t in route.slots && HasServerLoader(table, route, t)
  }

  /** `server` after the type loop. */
  predicate OwnServer(table: ChunkTable, route: AppRoute)
  {
    HasServerLoader(table, route, Layout) || HasServerLoader(table, route, Error) || HasServerLoader(table, route, Page)
  }

  /** `edge` after the type loop: some server-loading component is marked `EDGE`. */
  predicate OwnEdge(table: ChunkTable, route: AppRoute)
  {
    exists t :: t in route.slots && HasServerLoader(table, route, t) && ExportsEdge(table, route, t)
  }

  /** An endpoint file marked `EDGE`. */
  predicate ApiEdge(table: ChunkTable, route: AppRoute)
  {
    Http in route.slots && ExportsEdge(table, route, Http)
  }

  predicate ServerLayout(table: ChunkTable, route: AppRoute)
  {
    HasServerLoader(table, route, Layout)
  }

  predicate EdgeLayout(table: ChunkTable, route: AppRoute)
  {
    ServerLayout(table, route) && ExportsEdge(table, route, Layout)
  }

  /** The scan's layout state: `serverLayouts` in push order and the edge and node layout id sets. */
  datatype Layouts = Layouts(serverLayouts: seq<AppRoute>, edgeIds: set<string>, nodeIds: set<string>)

  /** What the scan returns. `deoptimized` is keyed by route position (the source keys it by route object). */
  datatype ServerRoutes = ServerRoutes(edgeRoutes: set<string>, serverLoaders: map<string, set<FileType>>,
                                       deoptimized: map<nat, seq<AppRoute>>)

  /** The layout state once the scan has visited `routes[lo..]`, last route first. */
  function LayoutsFrom(routes: seq<AppRoute>, table: ChunkTable, lo: nat): Layouts
    decreases |routes| - lo
  {
    if lo >= |routes| then Layouts([], {}, {})
    else
      var st := LayoutsFrom(routes, table, lo + 1);
      var route := routes[lo];
      if !ServerLayout(table, route) then st
      else if ExportsEdge(table, route, Layout) then
        Layouts(st.serverLayouts + [route], st.edgeIds + {route.info.id}, st.nodeIds)
      else Layouts(st.serverLayouts + [route], st.edgeIds, st.nodeIds + {route.info.id})
  }

  function PrefixOf(id: string): AppRoute -> bool
  {
    (l: AppRoute) => IsPrefix(l.info.id, id)
  }

  function IdIn(ids: set<string>): AppRoute -> bool
  {
    (l: AppRoute) => l.info.id in ids
  }

  /** One iteration's classification of `routes[i]`, given the layouts seen so far (including its own). */
  function Classify(table: ChunkTable, out: ServerRoutes, layouts: Layouts, route: AppRoute, i: nat): ServerRoutes
  {
    var id := route.info.id;
    var edgeRoutes := if ApiEdge(table, route) then out.edgeRoutes + {id} else out.edgeRoutes;
    var branch := Filter(layouts.serverLayouts, PrefixOf(id));
    if OwnServer(table, route) || |branch| > 0 then
      var loaders := out.serverLoaders[id := LoaderTypes(table, route)];
      if OwnEdge(table, route) || |Filter(branch, IdIn(layouts.edgeIds))| > 0 then
        var nodeBranch := Filter(branch, IdIn(layouts.nodeIds));
        if |nodeBranch| > 0 then ServerRoutes(edgeRoutes, loaders, out.deoptimized[i := nodeBranch])
        else ServerRoutes(edgeRoutes + {id}, loaders, out.deoptimized)
      else ServerRoutes(edgeRoutes, loaders, out.deoptimized)
    else ServerRoutes(edgeRoutes, out.serverLoaders, out.deoptimized)
  }

  /** The result once the scan has visited `routes[lo..]`. */
  function OutFrom(routes: seq<AppRoute>, table: ChunkTable, lo: nat): ServerRoutes
    decreases |routes| - lo
  {
    if lo >= |routes| then ServerRoutes({}, map[], map[])
    else Classify(table, OutFrom(routes, table, lo + 1), LayoutsFrom(routes, table, lo), routes[lo], lo)
  }

  // Closed-form account of the scan, over the routes at or after position `j`.

  /** A server layout at or after `j` whose id is a prefix of route `j`'s id. */
  predicate HasServerBranch(routes: seq<AppRoute>, table: ChunkTable, j: nat)
    requires j < |routes|
  {
    exists k :: j <= k < |routes| && ServerLayout(table, routes[k]) && IsPrefix(routes[k].info.id, routes[j].info.id)
  }

  predicate IsEdgeLayoutId(routes: seq<AppRoute>, table: ChunkTable, j: nat, id: string)
  {
    exists k :: j <= k < |routes| && EdgeLayout(table, routes[k]) && routes[k].info.id == id
  }

  predicate IsNodeLayoutId(routes: seq<AppRoute>, table: ChunkTable, j: nat, id: string)
  {
    exists k :: j <= k < |routes| && ServerLayout(table, routes[k]) && !ExportsEdge(table, routes[k], Layout)
                && routes[k].info.id == id
  }

  /** Route `k` is a server layout in the branch of route `j`. */
  predicate InServerBranch(routes: seq<AppRoute>, table: ChunkTable, j: nat, k: nat)
    requires j < |routes| && k < |routes|
  {
    j <= k && ServerLayout(table, routes[k]) && IsPrefix(routes[k].info.id, routes[j].info.id)
  }

  predicate InServer(routes: seq<AppRoute>, table: ChunkTable, j: nat)
    requires j < |routes|
  {
    OwnServer(table, routes[j]) || HasServerBranch(routes, table, j)
  }

  predicate Edgy(routes: seq<AppRoute>, table: ChunkTable, j: nat)
    requires j < |routes|
  {
    OwnEdge(table, routes[j])
    || exists k :: 0 <= k < |routes| && InServerBranch(routes, table, j, k) && IsEdgeLayoutId(routes, table, j, routes[k].info.id)
  }

  predicate HasNodeBranch(routes: seq<AppRoute>, table: ChunkTable, j: nat)
    requires j < |routes|
  {
    exists k :: 0 <= k < |routes| && InServerBranch(routes, table, j, k) && IsNodeLayoutId(routes, table, j, routes[k].info.id)
  }

  predicate Deoptimized(routes: seq<AppRoute>, table: ChunkTable, j: nat)
    requires j < |routes|
  {
    InServer(routes, table, j) && Edgy(routes, table, j) && HasNodeBranch(routes, table, j)
  }

  predicate EdgeRoute(routes: seq<AppRoute>, table: ChunkTable, j: nat)
    requires j < |routes|
  {
    ApiEdge(table, routes[j]) || (InServer(routes, table, j) && Edgy(routes, table, j) && !HasNodeBranch(routes, table, j))
  }

  /** The layout state holds exactly the server layouts at or after `lo`, split by their `EDGE` mark. */
  lemma {:induction false} LayoutsFromSpec(routes: seq<AppRoute>, table: ChunkTable, lo: nat)
    requires lo <= |routes|
    ensures var st := LayoutsFrom(routes, table, lo);
            && (forall x :: x in st.serverLayouts <==> exists k :: lo <= k < |routes| && routes[k] == x && ServerLayout(table, x))
            && (forall id :: id in st.edgeIds <==> IsEdgeLayoutId(routes, table, lo, id))
            && (forall id :: id in st.nodeIds <==> IsNodeLayoutId(routes, table, lo, id))
    decreases |routes| - lo
  {
    if lo < |routes| {
      LayoutsFromSpec(routes, table, lo + 1);
    }
  }

  /** Route `j`'s iteration sees a non-empty branch iff some server layout at or after `j` prefixes its id. */
  lemma BranchNonEmpty(routes: seq<AppRoute>, table: ChunkTable, j: nat)
    requires j < |routes|
    ensures |Filter(LayoutsFrom(routes, table, j).serverLayouts, PrefixOf(routes[j].info.id))| > 0
            <==> HasServerBranch(routes, table, j)
  {
    LayoutsFromSpec(routes, table, j);
    var branch := Filter(LayoutsFrom(routes, table, j).serverLayouts, PrefixOf(routes[j].info.id));
    if HasServerBranch(routes, table, j) {
      var k :| j <= k < |routes| && ServerLayout(table, routes[k]) && IsPrefix(routes[k].info.id, routes[j].info.id);
      assert PrefixOf(routes[j].info.id)(routes[k]);
      assert routes[k] in branch;
    }
    if |branch| > 0 {
      assert branch[0] in branch;
    }
  }

  /** The members of the branch of route `j` restricted to the layouts with ids in `ids`. */
  lemma BranchMembers(routes: seq<AppRoute>, table: ChunkTable, j: nat, ids: set<string>, x: AppRoute)
    requires j < |routes|
    ensures var st := LayoutsFrom(routes, table, j);
            x in Filter(Filter(st.serverLayouts, PrefixOf(routes[j].info.id)), IdIn(ids))
            <==> (exists k :: 0 <= k < |routes| && InServerBranch(routes, table, j, k) && routes[k] == x) && x.info.id in ids
  {
    LayoutsFromSpec(routes, table, j);
    var st := LayoutsFrom(routes, table, j);
    var branch := Filter(st.serverLayouts, PrefixOf(routes[j].info.id));
    assert x in branch <==> x in st.serverLayouts && IsPrefix(x.info.id, routes[j].info.id);
  }

  /** The branch of route `j` has an edge layout iff a server layout of its branch is an edge layout. */
  lemma BranchHasEdge(routes: seq<AppRoute>, table: ChunkTable, j: nat)
    requires j < |routes|
    ensures var st := LayoutsFrom(routes, table, j);
            |Filter(Filter(st.serverLayouts, PrefixOf(routes[j].info.id)), IdIn(st.edgeIds))| > 0
            <==> exists k :: 0 <= k < |routes| && InServerBranch(routes, table, j, k) && IsEdgeLayoutId(routes, table, j, routes[k].info.id)
  {
    LayoutsFromSpec(routes, table, j);
    var st := LayoutsFrom(routes, table, j);
    var edges := Filter(Filter(st.serverLayouts, PrefixOf(routes[j].info.id)), IdIn(st.edgeIds));
    if exists k :: 0 <= k < |routes| && InServerBranch(routes, table, j, k) && IsEdgeLayoutId(routes, table, j, routes[k].info.id) {
      var k :| 0 <= k < |routes| && InServerBranch(routes, table, j, k) && IsEdgeLayoutId(routes, table, j, routes[k].info.id);
      BranchMembers(routes, table, j, st.edgeIds, routes[k]);
      assert routes[k] in edges;
    }
    if |edges| > 0 {
      BranchMembers(routes, table, j, st.edgeIds, edges[0]);
      assert edges[0] in edges;
    }
  }

  /** The node part of route `j`'s branch holds exactly its branch layouts that are node layouts. */
  lemma NodeBranchMembers(routes: seq<AppRoute>, table: ChunkTable, j: nat)
    requires j < |routes|
    ensures var st := LayoutsFrom(routes, table, j);
            forall x :: x in Filter(Filter(st.serverLayouts, PrefixOf(routes[j].info.id)), IdIn(st.nodeIds)) <==>
                  exists k :: 0 <= k < |routes| && InServerBranch(routes, table, j, k) && routes[k] == x
                              && IsNodeLayoutId(routes, table, j, x.info.id)
  {
    LayoutsFromSpec(routes, table, j);
    var st := LayoutsFrom(routes, table, j);
    forall x ensures x in Filter(Filter(st.serverLayouts, PrefixOf(routes[j].info.id)), IdIn(st.nodeIds)) <==>
                  exists k :: 0 <= k < |routes| && InServerBranch(routes, table, j, k) && routes[k] == x
                              && IsNodeLayoutId(routes, table, j, x.info.id)
    {
      BranchMembers(routes, table, j, st.nodeIds, x);
    }
  }

  /** The three decisions of route `j`'s iteration, in closed form. */
  lemma ClassifyDecisions(routes: seq<AppRoute>, table: ChunkTable, j: nat)
    requires j < |routes|
    ensures var st := LayoutsFrom(routes, table, j);
            var branch := Filter(st.serverLayouts, PrefixOf(routes[j].info.id));
            && ((OwnServer(table, routes[j]) || |branch| > 0) <==> InServer(routes, table, j))
            && ((OwnEdge(table, routes[j]) || |Filter(branch, IdIn(st.edgeIds))| > 0) <==> Edgy(routes, table, j))
            && (|Filter(branch, IdIn(st.nodeIds))| > 0 <==> HasNodeBranch(routes, table, j))
  {
    BranchNonEmpty(routes, table, j);
    BranchHasEdge(routes, table, j);
    NodeBranchMembers(routes, table, j);
    var st := LayoutsFrom(routes, table, j);
    var nodes := Filter(Filter(st.serverLayouts, PrefixOf(routes[j].info.id)), IdIn(st.nodeIds));
    if |nodes| > 0 {
      assert nodes[0] in nodes;
    }
    if HasNodeBranch(routes, table, j) {
      var k :| 0 <= k < |routes| && InServerBranch(routes, table, j, k) && IsNodeLayoutId(routes, table, j, routes[k].info.id);
      assert routes[k] in nodes;
    }
  }

  /** Route `lo`'s iteration on `edgeRoutes`. */
  lemma EdgeRoutesStep(routes: seq<AppRoute>, table: ChunkTable, lo: nat)
    requires lo < |routes|
    ensures OutFrom(routes, table, lo).edgeRoutes
            == if IsEdgeRoute(routes, table)(lo) then OutFrom(routes, table, lo + 1).edgeRoutes + {routes[lo].info.id}
               else OutFrom(routes, table, lo + 1).edgeRoutes
  {
    ClassifyDecisions(routes, table, lo);
  }

  /** Route `lo`'s iteration on `serverLoaders`. */
  lemma ServerLoadersStep(routes: seq<AppRoute>, table: ChunkTable, lo: nat)
    requires lo < |routes|
    ensures OutFrom(routes, table, lo).serverLoaders
            == if IsInServer(routes, table)(lo)
               then OutFrom(routes, table, lo + 1).serverLoaders[routes[lo].info.id := LoaderTypesAt(routes, table)(lo)]
               else OutFrom(routes, table, lo + 1).serverLoaders
  {
    ClassifyDecisions(routes, table, lo);
  }

  /** Route `lo`'s iteration on `deoptimized`. */
  lemma DeoptimizedStep(routes: seq<AppRoute>, table: ChunkTable, lo: nat)
    requires lo < |routes|
    ensures OutFrom(routes, table, lo).deoptimized
            == if IsDeoptimized(routes, table)(lo)
               then OutFrom(routes, table, lo + 1).deoptimized[lo := NodeBranch(routes, table)(lo)]
               else OutFrom(routes, table, lo + 1).deoptimized
  {
    ClassifyDecisions(routes, table, lo);
  }

  /** Adding position `lo` to a characterised id set characterises the result from `lo` on. */
  lemma IdsStep(routes: seq<AppRoute>, p: nat -> bool, lo: nat, prev: set<string>, now: set<string>)
    requires lo < |routes|
    requires forall id :: id in prev <==> exists j :: lo + 1 <= j < |routes| && routes[j].info.id == id && p(j)
    requires now == if p(lo) then prev + {routes[lo].info.id} else prev
    ensures forall id :: id in now <==> exists j :: lo <= j < |routes| && routes[j].info.id == id && p(j)
  {
    forall id ensures id in now <==> exists j :: lo <= j < |routes| && routes[j].info.id == id && p(j) {
      if exists j :: lo <= j < |routes| && routes[j].info.id == id && p(j) {
        var j :| lo <= j < |routes| && routes[j].info.id == id && p(j);
        if j > lo {
          assert id in prev;
        }
      }
    }
  }

  /** Recording position `lo` under its route's id keeps every later record, ids being distinct. */
  lemma RecordStep<V>(routes: seq<AppRoute>, p: nat -> bool, val: nat -> V, lo: nat,
                      prev: map<string, V>, now: map<string, V>)
    requires lo < |routes| && UniqueIds(routes)
    requires forall j :: lo + 1 <= j < |routes| && p(j) ==> routes[j].info.id in prev && prev[routes[j].info.id] == val(j)
    requires now == if p(lo) then prev[routes[lo].info.id := val(lo)] else prev
    ensures forall j :: lo <= j < |routes| && p(j) ==> routes[j].info.id in now && now[routes[j].info.id] == val(j)
  {
  }

  /** Recording position `lo` extends a record of the positions from `lo + 1` on to those from `lo` on. */
  lemma PositionStep<V>(p: nat -> bool, val: nat -> V, lo: nat, n: nat, prev: map<nat, V>, now: map<nat, V>)
    requires lo < n
    requires forall j :: j in prev <==> lo + 1 <= j < n && p(j)
    requires forall j :: j in prev ==> prev[j] == val(j)
    requires now == if p(lo) then prev[lo := val(lo)] else prev
    ensures forall j :: j in now <==> lo <= j < n && p(j)
    ensures forall j :: j in now ==> now[j] == val(j)
  {
  }

  function IsEdgeRoute(routes: seq<AppRoute>, table: ChunkTable): nat -> bool
  {
    (j: nat) => j < |routes| && EdgeRoute(routes, table, j)
  }

  function IsInServer(routes: seq<AppRoute>, table: ChunkTable): nat -> bool
  {
    (j: nat) => j < |routes| && InServer(routes, table, j)
  }

  function LoaderTypesAt(routes: seq<AppRoute>, table: ChunkTable): nat -> set<FileType>
  {
    (j: nat) => if j < |routes| then LoaderTypes(table, routes[j]) else {}
  }

  function IsDeoptimized(routes: seq<AppRoute>, table: ChunkTable): nat -> bool
  {
    (j: nat) => j < |routes| && Deoptimized(routes, table, j)
  }

  /** The node layouts of route `j`'s branch, as its iteration computes them. */
  function NodeBranch(routes: seq<AppRoute>, table: ChunkTable): nat -> seq<AppRoute>
  {
    (j: nat) => if j < |routes| then Filter(Filter(LayoutsFrom(routes, table, j).serverLayouts, PrefixOf(routes[j].info.id)),
                                           IdIn(LayoutsFrom(routes, table, j).nodeIds))
                else []
  }

  /** The ids `edgeRoutes` holds after the scan of `routes[lo..]`. */
  ghost predicate EdgeRoutesFrom(routes: seq<AppRoute>, table: ChunkTable, lo: nat)
  {
    forall id :: id in OutFrom(routes, table, lo).edgeRoutes <==>
      exists j :: lo <= j < |routes| && routes[j].info.id == id && IsEdgeRoute(routes, table)(j)
  }

  lemma EdgeRoutesFromStep(routes: seq<AppRoute>, table: ChunkTable, lo: nat)
    requires lo < |routes| && EdgeRoutesFrom(routes, table, lo + 1)
    ensures EdgeRoutesFrom(routes, table, lo)
  {
    EdgeRoutesStep(routes, table, lo);
    IdsStep(routes, IsEdgeRoute(routes, table), lo, OutFrom(routes, table, lo + 1).edgeRoutes, OutFrom(routes, table, lo).edgeRoutes);
  }

  lemma {:induction false} ScanEdgeRoutes(routes: seq<AppRoute>, table: ChunkTable, lo: nat)
    requires lo <= |routes|
    ensures EdgeRoutesFrom(routes, table, lo)
    decreases |routes| - lo
  {
    if lo < |routes| {
      ScanEdgeRoutes(routes, table, lo + 1);
      EdgeRoutesFromStep(routes, table, lo);
    }
  }

  /** The ids `serverLoaders` holds after the scan of `routes[lo..]`. */
  ghost predicate LoaderIdsFrom(routes: seq<AppRoute>, table: ChunkTable, lo: nat)
  {
    forall id :: id in OutFrom(routes, table, lo).serverLoaders.Keys <==>
      exists j :: lo <= j < |routes| && routes[j].info.id == id && IsInServer(routes, table)(j)
  }

  lemma LoaderIdsFromStep(routes: seq<AppRoute>, table: ChunkTable, lo: nat)
    requires lo < |routes| && LoaderIdsFrom(routes, table, lo + 1)
    ensures LoaderIdsFrom(routes, table, lo)
  {
    ServerLoadersStep(routes, table, lo);
    var prev, now := OutFrom(routes, table, lo + 1).serverLoaders, OutFrom(routes, table, lo).serverLoaders;
    assert now.Keys == if IsInServer(routes, table)(lo) then prev.Keys + {routes[lo].info.id} else prev.Keys;
    IdsStep(routes, IsInServer(routes, table), lo, prev.Keys, now.Keys);
  }

  lemma {:induction false} ScanLoaderIds(routes: seq<AppRoute>, table: ChunkTable, lo: nat)
    requires lo <= |routes|
    ensures LoaderIdsFrom(routes, table, lo)
    decreases |routes| - lo
  {
    if lo < |routes| {
      ScanLoaderIds(routes, table, lo + 1);
      LoaderIdsFromStep(routes, table, lo);
    }
  }

  /** Each server route at or after `lo` has its `serverLoader` record after the scan of `routes[lo..]`. */
  ghost predicate LoaderValuesFrom(routes: seq<AppRoute>, table: ChunkTable, lo: nat)
  {
    forall j :: lo <= j < |routes| && IsInServer(routes, table)(j) ==>
      routes[j].info.id in OutFrom(routes, table, lo).serverLoaders
      && OutFrom(routes, table, lo).serverLoaders[routes[j].info.id] == LoaderTypesAt(routes, table)(j)
  }

  lemma LoaderValuesFromStep(routes: seq<AppRoute>, table: ChunkTable, lo: nat)
    requires lo < |routes| && UniqueIds(routes)
    ensures LoaderValuesFrom(routes, table, lo)
    decreases |routes| - lo, 0
  {
    ScanLoaderValues(routes, table, lo + 1);
    ServerLoadersStep(routes, table, lo);
    RecordStep(routes, IsInServer(routes, table), LoaderTypesAt(routes, table), lo,
               OutFrom(routes, table, lo + 1).serverLoaders, OutFrom(routes, table, lo).serverLoaders);
  }

  /** With distinct ids, each server route's `serverLoader` record names its loading component types. */
  lemma {:induction false} ScanLoaderValues(routes: seq<AppRoute>, table: ChunkTable, lo: nat)
    requires lo <= |routes| && UniqueIds(routes)
    ensures LoaderValuesFrom(routes, table, lo)
    decreases |routes| - lo, 1
  {
    if lo < |routes| {
      LoaderValuesFromStep(routes, table, lo);
    }
  }

  /** The positions `deoptimized` holds after the scan of `routes[lo..]`, and the layouts recorded for each. */
  ghost predicate DeoptimizedFrom(routes: seq<AppRoute>, table: ChunkTable, lo: nat)
  {
    var d := OutFrom(routes, table, lo).deoptimized;
    && (forall j :: j in d <==> lo <= j < |routes| && IsDeoptimized(routes, table)(j))
    && (forall j :: j in d ==> d[j] == NodeBranch(routes, table)(j))
  }

  lemma DeoptimizedFromStep(routes: seq<AppRoute>, table: ChunkTable, lo: nat)
    requires lo < |routes|
    ensures DeoptimizedFrom(routes, table, lo)
    decreases |routes| - lo, 0
  {
    ScanDeoptimized(routes, table, lo + 1);
    DeoptimizedStep(routes, table, lo);
    PositionStep(IsDeoptimized(routes, table), NodeBranch(routes, table), lo, |routes|,
                 OutFrom(routes, table, lo + 1).deoptimized, OutFrom(routes, table, lo).deoptimized);
  }

  lemma {:induction false} ScanDeoptimized(routes: seq<AppRoute>, table: ChunkTable, lo: nat)
    requires lo <= |routes|
    ensures DeoptimizedFrom(routes, table, lo)
    decreases |routes| - lo, 1
  {
    if lo < |routes| {
      DeoptimizedFromStep(routes, table, lo);
    }
  }

  /**
   `resolveServerRoutes`: the scan from the last route to the first, in closed
   form. A route loads on the server when a component exports `serverLoader` or
   a server layout prefixes its id; such a route is edge-marked when one of its
   loaders or one of its branch layouts exports `EDGE`; an edge-marked route
   whose branch has a node layout is deoptimized (recorded with those layouts)
   instead of being added to the edge routes. Endpoints exporting `EDGE` are
   edge routes regardless.
   */
  function ResolveServerRoutes(routes: seq<AppRoute>, table: ChunkTable): (r: ServerRoutes)
    ensures forall id :: id in r.edgeRoutes <==>
              exists j :: 0 <= j < |routes| && routes[j].info.id == id && EdgeRoute(routes, table, j)
  {
    ScanEdgeRoutes(routes, table, 0);
    OutFrom(routes, table, 0)
  }

  /** An endpoint exporting `EDGE` always makes its route an edge route. */
  lemma ApiEdgeIsEdgeRoute(routes: seq<AppRoute>, table: ChunkTable, j: nat)
    requires j < |routes| && ApiEdge(table, routes[j])
    ensures routes[j].info.id in ResolveServerRoutes(routes, table).edgeRoutes
  {
    assert EdgeRoute(routes, table, j);
  }

  /** The routes with a `serverLoaders` entry, and (ids being distinct) the entry of each. */
  lemma ServerLoadersSpec(routes: seq<AppRoute>, table: ChunkTable)
    ensures var r := ResolveServerRoutes(routes, table);
            forall id :: id in r.serverLoaders <==>
              exists j :: 0 <= j < |routes| && routes[j].info.id == id && InServer(routes, table, j)
    ensures var r := ResolveServerRoutes(routes, table);
            UniqueIds(routes) ==> forall j :: 0 <= j < |routes| && InServer(routes, table, j) ==>
              r.serverLoaders[routes[j].info.id] == LoaderTypes(table, routes[j])
  {
    ScanLoaderIds(routes, table, 0);
    var r := ResolveServerRoutes(routes, table);
    assert forall id :: id in r.serverLoaders <==> id in r.serverLoaders.Keys;
    if UniqueIds(routes) {
      ScanLoaderValues(routes, table, 0);
    }
  }

  /** The deoptimized routes, by position. */
  lemma DeoptimizedSpec(routes: seq<AppRoute>, table: ChunkTable)
    ensures forall j: nat :: j in ResolveServerRoutes(routes, table).deoptimized <==>
              j < |routes| && Deoptimized(routes, table, j)
  {
    ScanDeoptimized(routes, table, 0);
  }

  /** A deoptimized route is recorded with exactly the node layouts of its branch. */
  lemma DeoptimizedLayouts(routes: seq<AppRoute>, table: ChunkTable, j: nat)
    requires j in ResolveServerRoutes(routes, table).deoptimized
    ensures j < |routes|
    ensures forall x :: x in ResolveServerRoutes(routes, table).deoptimized[j] <==>
              exists k :: 0 <= k < |routes| && InServerBranch(routes, table, j, k) && routes[k] == x
                          && IsNodeLayoutId(routes, table, j, x.info.id)
  {
    ScanDeoptimized(routes, table, 0);
    NodeBranchOf(routes, table, j, ResolveServerRoutes(routes, table).deoptimized[j]);
  }

  lemma NodeBranchOf(routes: seq<AppRoute>, table: ChunkTable, j: nat, layouts: seq<AppRoute>)
    requires j < |routes| && layouts == NodeBranch(routes, table)(j)
    ensures forall x :: x in layouts <==>
              exists k :: 0 <= k < |routes| && InServerBranch(routes, table, j, k) && routes[k] == x
                          && IsNodeLayoutId(routes, table, j, x.info.id)
  {
    NodeBranchMembers(routes, table, j);
  }

  /**
   With distinct ids, a deoptimized route is an edge route only through an
   endpoint exporting `EDGE`: the component part of the route is never both.
   */
  lemma DeoptimizedNotEdge(routes: seq<AppRoute>, table: ChunkTable, j: nat)
    requires UniqueIds(routes) && j < |routes|
    requires j in ResolveServerRoutes(routes, table).deoptimized
    ensures routes[j].info.id in ResolveServerRoutes(routes, table).edgeRoutes <==> ApiEdge(table, routes[j])
  {
    DeoptimizedSpec(routes, table);
    var r := ResolveServerRoutes(routes, table);
    if routes[j].info.id in r.edgeRoutes {
      var k :| 0 <= k < |routes| && routes[k].info.id == routes[j].info.id && EdgeRoute(routes, table, k);
      assert k == j;
    }
  }
}
