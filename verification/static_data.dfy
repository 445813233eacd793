/**
 Static loader data on the server (packages/app/src/server/static-data.ts):
 the loader input for a URL, the map from static-data asset id to the data
 a route component's static loader produced, and the script tag that
 ships that map to the client.

 Route matching (`execRouteMatch`) and the asset-id scheme
 (`resolveStaticDataAssetId`) are outside the model and enter as function
 parameters.
 */
module StaticData {

  import opened Wrappers
  import opened Seqs
  import opened OrderedMap
  import opened Json
  import Routes

  /** The parts of a URL the loader input reads. */
  datatype Url = Url(pathname: string)

  /** The groups of a successful route match, by name. */
  type Params = Entries<string>

  /** `execRouteMatch(url, route)`: the match groups, or `None` when the route does not match. */
  type RouteMatcher = (Url, Routes.RouteInfo) -> Option<Params>

  datatype StaticLoaderInput = StaticLoaderInput(pathname: string, route: Routes.RouteInfo, params: Params)

  /**
   `createStaticLoaderInput`. The source asserts the match is non-null and
   reads its groups; when the route does not match that read fails, which
   the model reports as `None`.
   */
  function StaticLoaderInputOf(url: Url, route: Routes.RouteInfo, exec: RouteMatcher): (r: Option<StaticLoaderInput>)
    ensures r.None? <==> exec(url, route).None?
    ensures r.Some? ==> r.value.pathname == url.pathname && r.value.route == route
                        && r.value.params == exec(url, route).value
  {
    match exec(url, route)
    case None => None
    case Some(groups) => Some(StaticLoaderInput(url.pathname, route, groups))
  }

  // ---------------------------------------------------------------------------
  // createStaticLoaderDataMap
  // ---------------------------------------------------------------------------

  /** The data a static loader returned: a JSON object's members, or nothing. */
  type StaticData = Entries<Json>

  /** A loaded route component; `staticData` is absent when its loader returned nothing. */
  datatype LoadedComponent = LoadedComponent(staticData: Option<StaticData>)

  /** A route after its components were loaded for one URL (`route.url.pathname` is `pathname`). */
  datatype ServerLoadedRoute = ServerLoadedRoute(id: string, pathname: string, components: map<Routes.FileType, LoadedComponent>)

  /** `resolveStaticDataAssetId(routeId, type, pathname)`. */
  type AssetId = (string, Routes.FileType, string) -> string

  /** The component of role `t` has static data with at least one key. */
  predicate Included(route: ServerLoadedRoute, t: Routes.FileType)
  {
    t in route.components && route.components[t].staticData.Some? && |route.components[t].staticData.value| > 0
  }

  /** The component of role `t` of `route` puts its data under key `k`. */
  predicate Contributes(route: ServerLoadedRoute, t: Routes.FileType, assetId: AssetId, k: string)
  {
    Routes.IsComponent(t) && Included(route, t) && assetId(route.id, t, route.pathname) == k
  }

  /** The assignment one component makes, if any. */
  function ComponentPair(route: ServerLoadedRoute, t: Routes.FileType, assetId: AssetId): (r: seq<(string, StaticData)>)
  {
    if Included(route, t) then [(assetId(route.id, t, route.pathname), route.components[t].staticData.value)] else []
  }

  /** The assignments of one route, in component-type order (layout, error, page). */
  function RoutePairs(route: ServerLoadedRoute, assetId: AssetId): (r: seq<(string, StaticData)>)
  {
    ComponentPair(route, Routes.Layout, assetId) + ComponentPair(route, Routes.Error, assetId)
    + ComponentPair(route, Routes.Page, assetId)
  }

  /** The `map.set` calls of the loop, in order. */
  function DataPairs(routes: seq<ServerLoadedRoute>, assetId: AssetId): (r: seq<(string, StaticData)>)
  {
    if |routes| == 0 then [] else RoutePairs(routes[0], assetId) + DataPairs(routes[1..], assetId)
  }

  /** `createStaticLoaderDataMap`: a `Map` filled by the assignments in order, the last one per key winning. */
  function StaticLoaderDataMap(routes: seq<ServerLoadedRoute>, assetId: AssetId): (r: Entries<StaticData>)
    ensures UniqueKeys(r)
    ensures forall k :: Get(r, k) == LastValue(DataPairs(routes, assetId), k)
  {
    FromPairs(DataPairs(routes, assetId))
  }

  /** All the stored data objects have at least one key. */
  predicate AllHaveData(ps: seq<(string, StaticData)>)
  {
    forall j :: 0 <= j < |ps| ==> |ps[j].1| > 0
  }

  /** Some route component with static data resolves to `k`. */
  predicate SomeContributes(routes: seq<ServerLoadedRoute>, assetId: AssetId, k: string)
  {
    exists i, t :: 0 <= i < |routes| && Contributes(routes[i], t, assetId, k)
  }

  lemma HasKeyAppend<V>(a: Entries<V>, b: Entries<V>, k: string)
    ensures HasKey(a + b, k) <==> HasKey(a, k) || HasKey(b, k)
  {
    if HasKey(b, k) {
      var j :| 0 <= j < |b| && b[j].0 == k;
      assert (a + b)[|a| + j] == b[j];
    }
    if HasKey(a, k) {
      var j :| 0 <= j < |a| && a[j].0 == k;
      assert (a + b)[j] == a[j];
    }
    if HasKey(a + b, k) {
      var j :| 0 <= j < |a + b| && (a + b)[j].0 == k;
      if j >= |a| {
        assert b[j - |a|].0 == k;
      }
    }
  }

  lemma SomeContributesStep(routes: seq<ServerLoadedRoute>, assetId: AssetId, k: string)
    requires |routes| > 0
    ensures SomeContributes(routes, assetId, k)
            <==> (exists t :: Contributes(routes[0], t, assetId, k)) || SomeContributes(routes[1..], assetId, k)
  {
    if SomeContributes(routes, assetId, k) {
      var i, t :| 0 <= i < |routes| && Contributes(routes[i], t, assetId, k);
      if i > 0 {
        assert routes[1..][i - 1] == routes[i];
      }
    }
    if SomeContributes(routes[1..], assetId, k) {
      var i, t :| 0 <= i < |routes[1..]| && Contributes(routes[1..][i], t, assetId, k);
      assert routes[i + 1] == routes[1..][i];
    }
  }

  lemma ComponentPairKey(route: ServerLoadedRoute, t: Routes.FileType, assetId: AssetId, k: string)
    ensures HasKey(ComponentPair(route, t, assetId), k) <==> Included(route, t) && assetId(route.id, t, route.pathname) == k
    ensures AllHaveData(ComponentPair(route, t, assetId))
  {
    if Included(route, t) {
      assert ComponentPair(route, t, assetId)[0].0 == assetId(route.id, t, route.pathname);
    }
  }

  lemma RoutePairsMembers(route: ServerLoadedRoute, assetId: AssetId, k: string)
    ensures HasKey(RoutePairs(route, assetId), k) <==> exists t :: Contributes(route, t, assetId, k)
    ensures AllHaveData(RoutePairs(route, assetId))
  {
    var a := ComponentPair(route, Routes.Layout, assetId);
    var b := ComponentPair(route, Routes.Error, assetId);
    var c := ComponentPair(route, Routes.Page, assetId);
    HasKeyAppend(a, b, k);
    HasKeyAppend(a + b, c, k);
    ComponentPairKey(route, Routes.Layout, assetId, k);
    ComponentPairKey(route, Routes.Error, assetId, k);
    ComponentPairKey(route, Routes.Page, assetId, k);
    assert RoutePairs(route, assetId) == a + b + c;
    if HasKey(a, k) {
      assert Contributes(route, Routes.Layout, assetId, k);
    }
    if HasKey(b, k) {
      assert Contributes(route, Routes.Error, assetId, k);
    }
    if HasKey(c, k) {
      assert Contributes(route, Routes.Page, assetId, k);
    }
    assert forall t :: Contributes(route, t, assetId, k) ==> t == Routes.Layout || t == Routes.Error || t == Routes.Page;
  }

  /**
   Every assignment stores non-empty data, and a key is assigned exactly
   when some route component with non-empty static data resolves to it.
   */
  lemma {:induction false} DataPairsMembers(routes: seq<ServerLoadedRoute>, assetId: AssetId, k: string)
    ensures HasKey(DataPairs(routes, assetId), k) <==> SomeContributes(routes, assetId, k)
    ensures AllHaveData(DataPairs(routes, assetId))
    decreases |routes|
  {
    if |routes| > 0 {
      var head := RoutePairs(routes[0], assetId);
      var rest := DataPairs(routes[1..], assetId);
      RoutePairsMembers(routes[0], assetId, k);
      DataPairsMembers(routes[1..], assetId, k);
      HasKeyAppend(head, rest, k);
      SomeContributesStep(routes, assetId, k);
      assert forall j :: |head| <= j < |head + rest| ==> (head + rest)[j] == rest[j - |head|];
    }
  }

  /**
   The data map has an entry for key `k` iff some route component whose
   static data has at least one key resolves to `k`, and every stored value
   has at least one key.
   */
  lemma DataMapKeys(routes: seq<ServerLoadedRoute>, assetId: AssetId, k: string)
    ensures HasKey(StaticLoaderDataMap(routes, assetId), k) <==> SomeContributes(routes, assetId, k)
    ensures HasKey(StaticLoaderDataMap(routes, assetId), k) ==> |Get(StaticLoaderDataMap(routes, assetId), k).value| > 0
  {
    var ps := DataPairs(routes, assetId);
    DataPairsMembers(routes, assetId, k);
    var v := LastValue(ps, k);
    if v.Some? {
      var j := LastValueIndex(ps, k);
      assert ps[j].1 == v.value;
    }
  }

  // ---------------------------------------------------------------------------
  // createStaticDataScriptTag
  // ---------------------------------------------------------------------------

  predicate HasData(e: (string, StaticData))
  {
    |e.1| > 0
  }

  /** The table object: the map's entries whose data has at least one key, in map order. */
  function DataTable(m: Entries<StaticData>): (r: Entries<StaticData>)
    ensures forall e :: e in r <==> e in m && |e.1| > 0
  {
    Filter(m, HasData)
  }

  /** With unique map keys, the table holds exactly the non-empty entries under the same keys. */
  lemma DataTableGet(m: Entries<StaticData>, k: string)
    requires UniqueKeys(m)
    ensures UniqueKeys(DataTable(m))
    ensures Get(DataTable(m), k) == if HasKey(m, k) && |Get(m, k).value| > 0 then Get(m, k) else None
  {
    var t := DataTable(m);
    FilterUniqueKeys(m, HasData);
    if HasKey(m, k) && |Get(m, k).value| > 0 {
      var i := KeyIndex(m, k).value;
      assert m[i] in t;
    } else if HasKey(t, k) {
      var j := KeyIndex(t, k).value;
      assert t[j] in m;
    }
  }

  /** Filtering a map with unique keys keeps its keys unique. */
  lemma {:induction false} FilterUniqueKeys<V(!new)>(m: Entries<V>, p: ((string, V)) -> bool)
    requires UniqueKeys(m)
    ensures UniqueKeys(Filter(m, p))
    decreases |m|
  {
    if |m| > 0 {
      var rest := Filter(m[1..], p);
      FilterUniqueKeys(m[1..], p);
      if p(m[0]) {
        assert forall e :: e in rest ==> e in m[1..];
        assert forall i :: 0 <= i < |rest| ==> rest[i] in m[1..] && rest[i].0 != m[0].0;
        assert Filter(m, p) == [m[0]] + rest;
      }
    }
  }

  const StaticDataGlobal: string := "__VSL_STATIC_DATA__"

  /** The table as a JSON object whose members are the data objects. */
  function DataTableJson(t: Entries<StaticData>): Json
  {
    JObj(seq(|t|, i requires 0 <= i < |t| => (t[i].0, JObj(t[i].1))))
  }

  /**
   `createStaticDataScriptTag`: always a script tag, even for an empty
   table, assigning the global from `JSON.parse` of a string literal that
   parses back to exactly the table's JSON text.
   */
  function StaticDataScriptTag(m: Entries<StaticData>): (r: string)
    ensures exists lit :: r == "<script>" + StaticDataGlobal + " = JSON.parse(" + lit + ");</script>"
                          && ParseStringLiteral(lit) == Some(Stringify(DataTableJson(DataTable(m))))
  {
    var text := Stringify(DataTableJson(DataTable(m)));
    var lit := Stringify(JStr(text));
    StringLiteralRoundTrip(text);
    "<script>" + StaticDataGlobal + " = JSON.parse(" + lit + ");</script>"
  }
}
