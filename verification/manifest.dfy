/**
 The client manifest: the encoder that flattens the route table into the
 virtual manifest module (packages/app/src/node/vite/files/files-plugin.ts)
 and the decoder the browser runs over it (packages/app/src/client/init.ts).

 The manifest has three parts: a positional list of component loaders, the
 `fetch` value (which loader positions have a server loader) and one entry
 per client route with its `[id, pathname, score]` triple and a flag per
 component slot. The decoder hands out loaders with a running index, so the
 i-th flagged slot receives the i-th loader.

 The router is outside the model; what the client code asks of it is
 recorded as a list of calls.
 */
module Manifest {

  import opened Wrappers
  import opened Strings
  import opened Seqs
  import opened Routes

  /** A loader as it appears in the module text: `() => import('/<root>')`. */
  function ImportSource(root: string): (r: string)
    ensures |r| > 0
    ensures IsPrefix("() => import('/", r)
  {
    "() => import('/" + root + "')"
  }

  /**
   The `fetch` field: the placeholder string written in build mode (replaced
   once chunks are known) or a list of 1-based loader positions.
   */
  datatype Fetch = Placeholder | Positions(positions: seq<int>)

  const PlaceholderText: string := "__VSL_SERVER_FETCH__"

  /** One manifest route: `path: [id, pathname, score]` plus `1`-or-undefined component flags. */
  datatype Entry = Entry(id: string, pathname: string, score: int, layout: bool, error: bool, page: bool)

  datatype ClientManifest = ClientManifest(loaders: seq<string>, fetch: Fetch, routes: seq<Entry>)

  // ---------------------------------------------------------------------------
  // Encoder (`loadClientManifestModule`)
  // ---------------------------------------------------------------------------

  /** The table routes with at least one component slot, in table order. */
  function ClientRoutes(t: AppRoutes): (r: seq<AppRoute>)
    ensures forall x :: x in r <==> x in t.routes && HasComponent(x.slots)
    ensures IsSubseq(r, t.routes)
  {
    FilterIsSubseq(t.routes, IsClientRoute);
    Filter(t.routes, IsClientRoute)
  }

  /** The loaders of one route: one per component type, `''` for an empty slot, empties dropped. */
  function RouteLoaders(route: AppRoute): (r: seq<string>)
    ensures forall s :: s in r ==> IsPrefix("() => import('/", s)
  {
    var candidates := seq(|ComponentTypes|, k requires 0 <= k < |ComponentTypes| =>
      if ComponentTypes[k] in route.slots then ImportSource(route.slots[ComponentTypes[k]].root) else "");
    Filter(candidates, (s: string) => |s| > 0)
  }

  function Bit(b: bool): nat
  {
    if b then 1 else 0
  }

  /** The loaders of a route, written slot by slot (an independent account of `RouteLoaders`). */
  function PresentLoaders(route: AppRoute): seq<string>
  {
    (if Layout in route.slots then [ImportSource(route.slots[Layout].root)] else [])
    + (if Error in route.slots then [ImportSource(route.slots[Error].root)] else [])
    + (if Page in route.slots then [ImportSource(route.slots[Page].root)] else [])
  }

  /** Dropping the `''` placeholders leaves exactly the populated component slots, in type order. */
  lemma RouteLoadersArePresentSlots(route: AppRoute)
    ensures RouteLoaders(route) == PresentLoaders(route)
  {
    var candidates := seq(|ComponentTypes|, k requires 0 <= k < |ComponentTypes| =>
      if ComponentTypes[k] in route.slots then ImportSource(route.slots[ComponentTypes[k]].root) else "");
    var p := (s: string) => |s| > 0;
    assert candidates == [candidates[0]] + [candidates[1]] + [candidates[2]];
    FilterAppend([candidates[0]] + [candidates[1]], [candidates[2]], p);
    FilterAppend([candidates[0]], [candidates[1]], p);
    assert Filter([candidates[0]], p) == (if Layout in route.slots then [ImportSource(route.slots[Layout].root)] else []);
    assert Filter([candidates[1]], p) == (if Error in route.slots then [ImportSource(route.slots[Error].root)] else []);
    assert Filter([candidates[2]], p) == (if Page in route.slots then [ImportSource(route.slots[Page].root)] else []);
  }

  function EntryOf(route: AppRoute): Entry
  {
    Entry(route.info.id, route.info.pathname, route.info.score, Layout in route.slots, Error in route.slots, Page in route.slots)
  }

  /** Number of flagged component slots of an entry. */
  function Flags(e: Entry): nat
  {
    Bit(e.layout) + Bit(e.error) + Bit(e.page)
  }

  function FlagsIn(es: seq<Entry>): nat
  {
    if |es| == 0 then 0 else Flags(es[0]) + FlagsIn(es[1..])
  }

  /** The manifest entries of `clients`, in order. */
  function Entries(clients: seq<AppRoute>): (r: seq<Entry>)
    ensures |r| == |clients|
    ensures forall i :: 0 <= i < |r| ==> r[i] == EntryOf(clients[i])
  {
    if |clients| == 0 then [] else [EntryOf(clients[0])] + Entries(clients[1..])
  }

  /** `clients.flatMap(routeLoaders)`: the loader list, route by route. */
  function EncodeLoaders(clients: seq<AppRoute>): (r: seq<string>)
    ensures |r| == FlagsIn(Entries(clients))
  {
    if |clients| == 0 then []
    else
      RouteLoadersArePresentSlots(clients[0]);
      assert Entries(clients)[1..] == Entries(clients[1..]);
      RouteLoaders(clients[0]) + EncodeLoaders(clients[1..])
  }

  /** `loadClientManifestModule(app)`, before serialisation. */
  function Encode(t: AppRoutes, isBuild: bool): (m: ClientManifest)
    // one entry per client route, same order, path triple and flags taken from the route
    ensures |m.routes| == |ClientRoutes(t)|
    ensures forall i :: 0 <= i < |m.routes| ==>
              var route := ClientRoutes(t)[i];
              && m.routes[i].id == route.info.id && m.routes[i].pathname == route.info.pathname
              && m.routes[i].score == route.info.score
              && (m.routes[i].layout <==> Layout in route.slots)
              && (m.routes[i].error <==> Error in route.slots)
              && (m.routes[i].page <==> Page in route.slots)
    // as many loaders as there are populated component slots
    ensures |m.loaders| == FlagsIn(m.routes)
    // the placeholder in build mode, an empty list otherwise
    ensures m.fetch == if isBuild then Placeholder else Positions([])
  {
    EncodeClients(ClientRoutes(t), isBuild)
  }

  // ---------------------------------------------------------------------------
  // Decoder (`readManifest`)
  // ---------------------------------------------------------------------------

  /** `loaders[i]`, which is `undefined` past the end. */
  function LoaderAt(loaders: seq<string>, i: nat): (r: Option<string>)
    ensures r.Some? <==> i < |loaders|
    ensures r.Some? ==> r.value == loaders[i]
  {
    if i < |loaders| then Some(loaders[i]) else None
  }

  /**
   `fetch.includes(n)`: list membership for a list, and substring search for
   the placeholder string (the number is converted to its decimal text).
   */
  predicate FetchIncludes(f: Fetch, n: nat)
  {
    match f
    case Placeholder => Contains(PlaceholderText, NatToString(n))
    case Positions(ps) => n as int in ps
  }

  /** The placeholder has no digits, so no loader is fetchable before it is replaced. */
  lemma PlaceholderIncludesNothing(n: nat)
    ensures !FetchIncludes(Placeholder, n)
  {
    NoDigitsNotContainsNumber(PlaceholderText, n);
  }

  datatype LoadableComponent = LoadableComponent(loader: Option<string>, canFetch: bool)

  datatype ClientRoute = ClientRoute(id: string, pathname: string, score: int, components: map<FileType, LoadableComponent>)

  predicate Flagged(e: Entry, t: FileType)
  {
    match t
    case Layout => e.layout
    case Error => e.error
    case Page => e.page
    case Http => false
  }

  /** How many flagged slots of `e` come before `t` in component-type order. */
  function Offset(e: Entry, t: FileType): nat
  {
    match t
    case Layout => 0
    case Error => Bit(e.layout)
    case Page => Bit(e.layout) + Bit(e.error)
    case Http => Flags(e)
  }

  /** One iteration of the component-type loop: a flagged slot takes the loader at the running index. */
  function DecodeSlot(flag: bool, t: FileType, m: ClientManifest, idx: nat, acc: map<FileType, LoadableComponent>)
    : (map<FileType, LoadableComponent>, nat)
  {
    if flag then (acc[t := LoadableComponent(LoaderAt(m.loaders, idx), FetchIncludes(m.fetch, idx + 1))], idx + 1)
    else (acc, idx)
  }

  /** Decodes one entry starting at loader index `idx`; returns the route and the next index. */
  function DecodeEntry(e: Entry, m: ClientManifest, idx: nat): (r: (ClientRoute, nat))
    ensures r.0.id == e.id && r.0.pathname == e.pathname && r.0.score == e.score
    ensures r.1 == idx + Flags(e)
    ensures forall t :: t in r.0.components <==> Flagged(e, t)
  {
    var (m1, i1) := DecodeSlot(e.layout, Layout, m, idx, map[]);
    var (m2, i2) := DecodeSlot(e.error, Error, m, i1, m1);
    var (m3, i3) := DecodeSlot(e.page, Page, m, i2, m2);
    (ClientRoute(e.id, e.pathname, e.score, m3), i3)
  }

  /**
   A flagged slot's loader is the one at its position among the entry's
   flagged slots, and `canFetch` asks for that position counted from 1.
   */
  lemma DecodedSlot(e: Entry, m: ClientManifest, idx: nat, t: FileType)
    requires Flagged(e, t)
    ensures t in DecodeEntry(e, m, idx).0.components
    ensures DecodeEntry(e, m, idx).0.components[t]
            == LoadableComponent(LoaderAt(m.loaders, idx + Offset(e, t)), FetchIncludes(m.fetch, idx + Offset(e, t) + 1))
  {
  }

  /** The entries from `idx` on; returns the routes and the loader index after the last one. */
  function DecodeEntries(es: seq<Entry>, m: ClientManifest, idx: nat): (r: (seq<ClientRoute>, nat))
    ensures |r.0| == |es|
    ensures r.1 == idx + FlagsIn(es)
    ensures forall j {:trigger r.0[j]} :: 0 <= j < |es| ==> r.0[j] == DecodeEntry(es[j], m, idx + FlagsIn(es[..j])).0
  {
    if |es| == 0 then ([], idx)
    else
      var head := DecodeEntry(es[0], m, idx);
      var tail := DecodeEntries(es[1..], m, head.1);
      DecodeEntriesCons(es, m, idx, head, tail.0);
      ([head.0] + tail.0, tail.1)
  }

  /** Puts the first route in front of the routes decoded from the rest. */
  lemma DecodeEntriesCons(es: seq<Entry>, m: ClientManifest, idx: nat, head: (ClientRoute, nat), tail: seq<ClientRoute>)
    requires |es| > 0 && head == DecodeEntry(es[0], m, idx) && |tail| == |es| - 1
    requires forall j' {:trigger tail[j']} :: 0 <= j' < |es[1..]| ==>
               tail[j'] == DecodeEntry(es[1..][j'], m, head.1 + FlagsIn(es[1..][..j'])).0
    ensures forall j {:trigger ([head.0] + tail)[j]} :: 0 <= j < |es| ==>
              ([head.0] + tail)[j] == DecodeEntry(es[j], m, idx + FlagsIn(es[..j])).0
  {
    var r := [head.0] + tail;
    assert es[..0] == [];
    forall j | 1 <= j < |es| ensures r[j] == DecodeEntry(es[j], m, idx + FlagsIn(es[..j])).0 {
      assert r[j] == tail[j - 1];
      DecodeEntriesStep(es, m, idx, head.1, tail, j);
    }
  }

  /** The tail's `j - 1`-th route is the `j`-th route of the whole sequence. */
  lemma DecodeEntriesStep(es: seq<Entry>, m: ClientManifest, idx: nat, next: nat, tail: seq<ClientRoute>, j: nat)
    requires 1 <= j < |es| && |tail| == |es| - 1 && next == idx + Flags(es[0])
    requires forall j' {:trigger tail[j']} :: 0 <= j' < |es[1..]| ==> tail[j'] == DecodeEntry(es[1..][j'], m, next + FlagsIn(es[1..][..j'])).0
    ensures tail[j - 1] == DecodeEntry(es[j], m, idx + FlagsIn(es[..j])).0
  {
    FlagsInPrefix(es, j);
    assert es[1..][j - 1] == es[j];
  }

  lemma FlagsInPrefix(es: seq<Entry>, j: nat)
    requires 1 <= j <= |es|
    ensures FlagsIn(es[..j]) == Flags(es[0]) + FlagsIn(es[1..][..j - 1])
  {
    assert es[..j][1..] == es[1..][..j - 1];
  }

  /** `readManifest(router, manifest)`: the routes handed to `router.addAll`. */
  function ReadManifest(m: ClientManifest): (r: seq<ClientRoute>)
    ensures |r| == |m.routes|
    ensures forall i :: 0 <= i < |r| ==> r[i].id == m.routes[i].id && r[i].pathname == m.routes[i].pathname
                                         && r[i].score == m.routes[i].score
    ensures forall i, t :: 0 <= i < |r| ==> (t in r[i].components <==> Flagged(m.routes[i], t))
    // the i-th flagged slot overall receives `loaders[i]`
    ensures forall i, t :: 0 <= i < |r| && t in r[i].components ==>
              r[i].components[t].loader == LoaderAt(m.loaders, FlagsIn(m.routes[..i]) + Offset(m.routes[i], t))
  {
    var r := DecodeEntries(m.routes, m, 0).0;
    forall i | 0 <= i < |r|
      ensures r[i].id == m.routes[i].id && r[i].pathname == m.routes[i].pathname && r[i].score == m.routes[i].score
    {
      DecodedRouteAt(m, i, Layout);
    }
    forall i, t | 0 <= i < |r|
      ensures t in r[i].components <==> Flagged(m.routes[i], t)
      ensures t in r[i].components ==>
                r[i].components[t].loader == LoaderAt(m.loaders, FlagsIn(m.routes[..i]) + Offset(m.routes[i], t))
    {
      DecodedRouteAt(m, i, t);
    }
    r
  }

  /** The `i`-th decoded route, as `DecodeEntries` leaves it from index 0. */
  lemma DecodedRouteAt(m: ClientManifest, i: nat, t: FileType)
    requires i < |m.routes|
    ensures var r := DecodeEntries(m.routes, m, 0).0[i];
            && r.id == m.routes[i].id && r.pathname == m.routes[i].pathname && r.score == m.routes[i].score
            && (t in r.components <==> Flagged(m.routes[i], t))
            && (t in r.components ==>
                  r.components[t].loader == LoaderAt(m.loaders, FlagsIn(m.routes[..i]) + Offset(m.routes[i], t)))
  {
    var rs := DecodeEntries(m.routes, m, 0).0;
    assert rs[i] == DecodeEntry(m.routes[i], m, FlagsIn(m.routes[..i])).0;
    if Flagged(m.routes[i], t) {
      DecodedSlot(m.routes[i], m, FlagsIn(m.routes[..i]), t);
    }
  }

  // ---------------------------------------------------------------------------
  // Round trip
  // ---------------------------------------------------------------------------

  /** Within one route's loaders, slot `t` sits at its offset among the flagged slots. */
  lemma PresentLoaderAt(route: AppRoute, t: FileType)
    requires t != Http && t in route.slots
    ensures |PresentLoaders(route)| == Flags(EntryOf(route))
    ensures Offset(EntryOf(route), t) < |PresentLoaders(route)|
    ensures PresentLoaders(route)[Offset(EntryOf(route), t)] == ImportSource(route.slots[t].root)
  {
  }

  /** The first route's loaders come first in the loader list. */
  lemma EncodeLoadersHead(clients: seq<AppRoute>)
    requires |clients| > 0
    ensures EncodeLoaders(clients) == PresentLoaders(clients[0]) + EncodeLoaders(clients[1..])
    ensures |PresentLoaders(clients[0])| == Flags(Entries(clients)[0])
  {
    RouteLoadersArePresentSlots(clients[0]);
    var r := clients[0];
    if Layout in r.slots { PresentLoaderAt(r, Layout); }
    else if Error in r.slots { PresentLoaderAt(r, Error); }
    else if Page in r.slots { PresentLoaderAt(r, Page); }
  }

  /** Where the decoder looks for the loader of slot `t` of entry `i`. */
  function LoaderPos(es: seq<Entry>, i: nat, t: FileType): nat
    requires i < |es|
  {
    FlagsIn(es[..i]) + Offset(es[i], t)
  }

  /** The encoder puts the loader of slot `t` of the i-th client route where the decoder looks for it. */
  predicate LoaderPlaced(clients: seq<AppRoute>, i: nat, t: FileType)
    requires i < |clients| && t in clients[i].slots
  {
    var pos := LoaderPos(Entries(clients), i, t);
    pos < |EncodeLoaders(clients)| && EncodeLoaders(clients)[pos] == ImportSource(clients[i].slots[t].root)
  }

  lemma LoaderPlacedFirst(clients: seq<AppRoute>, t: FileType)
    requires 0 < |clients| && t != Http && t in clients[0].slots
    ensures LoaderPlaced(clients, 0, t)
  {
    EncodeLoadersHead(clients);
    PresentLoaderAt(clients[0], t);
    assert Entries(clients)[..0] == [];
  }

  lemma LoaderPlacedStep(clients: seq<AppRoute>, i: nat, t: FileType)
    requires 0 < i < |clients| && t in clients[i].slots
    requires clients[1..][i - 1] == clients[i]
    requires LoaderPlaced(clients[1..], i - 1, t)
    ensures LoaderPlaced(clients, i, t)
  {
    var es := Entries(clients);
    var tail := Entries(clients[1..]);
    EncodeLoadersHead(clients);
    var head := PresentLoaders(clients[0]);
    assert LoaderPos(es, i, t) == |head| + LoaderPos(tail, i - 1, t) by {
      assert es[1..] == tail;
      FlagsInPrefix(es, i);
      assert tail[i - 1] == es[i];
    }
  }

  /** The loader of slot `t` of every client route sits at the position the decoder computes for it. */
  lemma {:induction false} EncodedLoaderPosition(clients: seq<AppRoute>, i: nat, t: FileType)
    requires i < |clients| && t != Http && t in clients[i].slots
    ensures LoaderPlaced(clients, i, t)
  {
    if i == 0 {
      LoaderPlacedFirst(clients, t);
    } else {
      assert clients[1..][i - 1] == clients[i];
      EncodedLoaderPosition(clients[1..], i - 1, t);
      LoaderPlacedStep(clients, i, t);
    }
  }

  /** The manifest encoded from a list of client routes. */
  function EncodeClients(clients: seq<AppRoute>, isBuild: bool): ClientManifest
  {
    ClientManifest(EncodeLoaders(clients), if isBuild then Placeholder else Positions([]), Entries(clients))
  }

  /** The component of slot `k` of decoded route `i` holds that slot's loader, and is not fetchable. */
  lemma DecodedComponent(clients: seq<AppRoute>, isBuild: bool, i: nat, k: FileType)
    requires i < |clients| && k != Http && k in clients[i].slots
    ensures var m := EncodeClients(clients, isBuild);
            DecodeEntry(m.routes[i], m, FlagsIn(m.routes[..i])).0.components[k]
              == LoadableComponent(Some(ImportSource(clients[i].slots[k].root)), false)
  {
    var m := EncodeClients(clients, isBuild);
    EncodedLoaderPosition(clients, i, k);
    var e := m.routes[i];
    var idx := FlagsIn(m.routes[..i]);
    var pos := idx + Offset(e, k);
    assert e == EntryOf(clients[i]);
    assert Flagged(e, k);
    assert LoaderAt(m.loaders, pos) == Some(ImportSource(clients[i].slots[k].root));
    assert !FetchIncludes(m.fetch, pos + 1) by {
      if isBuild {
        PlaceholderIncludesNothing(pos + 1);
      }
    }
    DecodedSlot(e, m, idx, k);
  }

  /** Decoding what was encoded from `clients` gives them back, in order, with their loaders. */
  lemma DecodeEncodedClients(clients: seq<AppRoute>, isBuild: bool)
    ensures var m := EncodeClients(clients, isBuild);
            var d := ReadManifest(m);
            && |d| == |clients|
            && DecodeEntries(m.routes, m, 0).1 == |m.loaders|
            && (forall i :: 0 <= i < |d| ==> d[i].id == clients[i].info.id && d[i].pathname == clients[i].info.pathname
                                             && d[i].score == clients[i].info.score)
            && (forall i, k :: 0 <= i < |d| ==> (k in d[i].components <==> k in clients[i].slots && k != Http))
            && (forall i, k :: 0 <= i < |d| && k in d[i].components ==>
                  d[i].components[k] == LoadableComponent(Some(ImportSource(clients[i].slots[k].root)), false))
  {
    var m := EncodeClients(clients, isBuild);
    var d := ReadManifest(m);
    forall i, k | 0 <= i < |d| && k in d[i].components
      ensures d[i].components[k] == LoadableComponent(Some(ImportSource(clients[i].slots[k].root)), false)
    {
      assert d[i] == DecodeEntry(m.routes[i], m, FlagsIn(m.routes[..i])).0;
      DecodedComponent(clients, isBuild, i, k);
    }
  }

  /**
   Decoding an encoded table gives the client routes in table order with
   their `id`, `pathname` and `score`, one component per populated component
   slot holding that slot's loader, and every loader consumed exactly once.
   No component is fetchable until the placeholder is replaced.
   */
  lemma RoundTrip(t: AppRoutes, isBuild: bool)
    ensures var m := Encode(t, isBuild);
            var clients := ClientRoutes(t);
            var d := ReadManifest(m);
            && |d| == |clients|
            && DecodeEntries(m.routes, m, 0).1 == |m.loaders|
            && (forall i :: 0 <= i < |d| ==> d[i].id == clients[i].info.id && d[i].pathname == clients[i].info.pathname
                                             && d[i].score == clients[i].info.score)
            && (forall i, k :: 0 <= i < |d| ==> (k in d[i].components <==> k in clients[i].slots && k != Http))
            && (forall i, k :: 0 <= i < |d| && k in d[i].components ==>
                  d[i].components[k] == LoadableComponent(Some(ImportSource(clients[i].slots[k].root)), false))
  {
    DecodeEncodedClients(ClientRoutes(t), isBuild);
  }

  // ---------------------------------------------------------------------------
  // Client start-up and hot updates
  // ---------------------------------------------------------------------------

  /** What the client code asks of the router. */
  datatype RouterCall =
    | AddRedirect(from: string, to: string)
    | AddAll(routes: seq<ClientRoute>)
    | RemoveRoute(id: string)

  /**
   The redirect registration in `init`: in production each key of the
   window's redirect map (absent means `{}`) is registered, in key order;
   in development nothing is.
   */
  function RegisterRedirects(prod: bool, redirects: Option<seq<(string, string)>>): (calls: seq<RouterCall>)
    ensures !prod ==> calls == []
    ensures prod && redirects.None? ==> calls == []
    ensures prod && redirects.Some? ==>
              |calls| == |redirects.value|
              && forall i :: 0 <= i < |calls| ==> calls[i] == AddRedirect(redirects.value[i].0, redirects.value[i].1)
  {
    if !prod then []
    else
      var table := redirects.GetOr([]);
      seq(|table|, i requires 0 <= i < |table| => AddRedirect(table[i].0, table[i].1))
  }

  /** The ids of the manifest's routes, in order. */
  function EntryIds(es: seq<Entry>): (r: seq<string>)
    ensures |r| == |es|
    ensures forall i :: 0 <= i < |r| ==> r[i] == es[i].id
  {
    if |es| == 0 then [] else [es[0].id] + EntryIds(es[1..])
  }

  /**
   `readManifest(router, manifest)` with the module-level `routeIds` set
   (kept in insertion order): one `addAll` call, and under hot reloading the
   ids are added to the set.
   */
  function ReadManifestCalls(m: ClientManifest, hot: bool, routeIds: seq<string>): (r: (seq<RouterCall>, seq<string>))
    requires NoDuplicates(routeIds)
    ensures r.0 == [AddAll(ReadManifest(m))]
    ensures NoDuplicates(r.1)
    ensures !hot ==> r.1 == routeIds
    ensures hot ==> |routeIds| <= |r.1| && r.1[..|routeIds|] == routeIds && forall id :: id in r.1 <==> id in routeIds || id in EntryIds(m.routes)
  {
    if hot then
      var added := DedupFrom(EntryIds(m.routes), routeIds);
      assert (routeIds + added)[..|routeIds|] == routeIds;
      ([AddAll(ReadManifest(m))], routeIds + added)
    else ([AddAll(ReadManifest(m))], routeIds)
  }

  /**
   `handleManifestChange(router, manifest?)`: under hot reloading every
   tracked id is removed from the router and from the set, in set order;
   then a new manifest, if any, is read. Without hot reloading nothing happens.
   */
  function HandleManifestChange(hot: bool, routeIds: seq<string>, manifest: Option<ClientManifest>)
    : (r: (seq<RouterCall>, seq<string>))
    requires NoDuplicates(routeIds)
    ensures !hot ==> r == ([], routeIds)
    ensures hot ==> |r.0| >= |routeIds| && forall i :: 0 <= i < |routeIds| ==> r.0[i] == RemoveRoute(routeIds[i])
    // afterwards only the new manifest's ids are tracked: the old set was emptied first
    ensures hot && manifest.None? ==> r == (seq(|routeIds|, i requires 0 <= i < |routeIds| => RemoveRoute(routeIds[i])), [])
    ensures hot && manifest.Some? ==>
              r.0[|routeIds|..] == [AddAll(ReadManifest(manifest.value))]
              && forall id :: id in r.1 <==> id in EntryIds(manifest.value.routes)
  {
    if !hot then ([], routeIds)
    else
      var removals := seq(|routeIds|, i requires 0 <= i < |routeIds| => RemoveRoute(routeIds[i]));
      match manifest
      case None => (removals, [])
      case Some(m) =>
        var (calls, ids) := ReadManifestCalls(m, true, []);
        assert (removals + calls)[|routeIds|..] == calls;
        (removals + calls, ids)
  }
}
