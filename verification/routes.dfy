/**
 The route table (`AppRoutes`, packages/app/src/node/app/routes/app-routes.ts).

 One `AppRoute` per route directory; each holds up to four file slots
 (layout, error, page and the HTTP endpoint file). The table is kept in
 non-increasing score order, which is the match priority. Files arrive and
 leave one at a time through `Add` and `Remove`; listeners observe the
 route that changed, modelled here as the event each operation emits.

 Route resolution (`resolveRouteFromFilePath`) and URL-pattern matching are
 outside the model: they are the `Resolver` and `PatternTest` parameters.
 */
module Routes {

  import opened Wrappers
  import opened Strings
  import opened Seqs

  /**
   The four file roles. `Http` is the endpoint role; the source names it
   `'api'` in some places and `'http'` in others.
   */
  datatype FileType = Layout | Page | Error | Http

  /** The component roles, in the order the manifest encoder and decoder walk them. */
  const ComponentTypes: seq<FileType> := [Layout, Error, Page]

  /** All four roles. */
  const FileTypes: seq<FileType> := [Layout, Error, Page, Http]

  predicate IsComponent(t: FileType)
  {
    t != Http
  }

  /** A file found in a route directory. */
  datatype RouteFile = RouteFile(
    dir: string,        // the owning directory's route string (`file.dir.route`)
    kind: FileType,
    absolute: string,   // `file.path.absolute`
    root: string,       // `file.path.root`, relative to the project root
    pathname: string)   // `file.path.pathname`, the URL it serves

  /** What route resolution computes for a directory: the shared `Route` record. */
  datatype RouteInfo = RouteInfo(id: string, order: int, score: int, pathname: string, dynamic: bool)

  /** A route: its resolved record, its directory, the `client` flag and the file slots. */
  datatype AppRoute = AppRoute(info: RouteInfo, dir: string, client: bool, slots: map<FileType, RouteFile>)

  datatype AppRoutes = AppRoutes(routes: seq<AppRoute>)

  datatype Event = Added(route: AppRoute) | Removed(route: AppRoute)

  /** `resolveRouteFromFilePath(dir, matchers)`. */
  type Resolver = string -> RouteInfo

  /** `route.pattern.test({ pathname })`. */
  type PatternTest = (RouteInfo, string) -> bool

  // ---------------------------------------------------------------------------
  // Invariants
  // ---------------------------------------------------------------------------

  predicate HasComponent(slots: map<FileType, RouteFile>)
  {
    Layout in slots || Error in slots || Page in slots
  }

  predicate IsClientRoute(r: AppRoute)
  {
    HasComponent(r.slots)
  }

  predicate SortedByScore(rs: seq<AppRoute>)
  {
    forall i, j :: 0 <= i < j < |rs| ==> rs[i].info.score >= rs[j].info.score
  }

  predicate UniqueDirs(rs: seq<AppRoute>)
  {
    forall i, j :: 0 <= i < j < |rs| ==> rs[i].dir != rs[j].dir
  }

  /** A route holds at least one file, its files are its own, and `client` says whether a component is present. */
  predicate WellFormedRoute(r: AppRoute)
  {
    && r.slots != map[]
    && (r.client <==> HasComponent(r.slots))
    && (forall t :: t in r.slots ==> r.slots[t].kind == t && r.slots[t].dir == r.dir)
  }

  predicate Valid(t: AppRoutes)
  {
    && SortedByScore(t.routes)
    && UniqueDirs(t.routes)
    && (forall i :: 0 <= i < |t.routes| ==> WellFormedRoute(t.routes[i]))
  }

  // ---------------------------------------------------------------------------
  // Lookup
  // ---------------------------------------------------------------------------

  /** Index of the first route of directory `dir` (the `existingRoute` search of `add`). */
  function DirIndex(rs: seq<AppRoute>, dir: string): (r: Option<nat>)
    ensures r.Some? ==> r.value < |rs| && rs[r.value].dir == dir
    ensures r.Some? ==> forall j :: 0 <= j < r.value ==> rs[j].dir != dir
    ensures r.None? ==> forall j :: 0 <= j < |rs| ==> rs[j].dir != dir
  {
    if |rs| == 0 then None
    else if rs[0].dir == dir then Some(0)
    else match DirIndex(rs[1..], dir)
      case Some(i) => Some(i + 1)
      case None => None
  }

  /** Index of the first route of the file's directory that holds the file's slot. */
  function FindIndex(rs: seq<AppRoute>, file: RouteFile): (r: Option<nat>)
    ensures r.Some? ==> r.value < |rs| && rs[r.value].dir == file.dir && file.kind in rs[r.value].slots
    ensures r.Some? ==> forall j :: 0 <= j < r.value ==> !(rs[j].dir == file.dir && file.kind in rs[j].slots)
    ensures r.None? ==> forall j :: 0 <= j < |rs| ==> !(rs[j].dir == file.dir && file.kind in rs[j].slots)
  {
    if |rs| == 0 then None
    else if rs[0].dir == file.dir && file.kind in rs[0].slots then Some(0)
    else match FindIndex(rs[1..], file)
      case Some(i) => Some(i + 1)
      case None => None
  }

  /** `find(file)`: the route of the file's directory, provided it holds the file's slot. */
  function Find(t: AppRoutes, file: RouteFile): (r: Option<AppRoute>)
    ensures r.Some? ==> r.value in t.routes && r.value.dir == file.dir && file.kind in r.value.slots
    ensures r.None? <==> forall j :: 0 <= j < |t.routes| ==> !(t.routes[j].dir == file.dir && file.kind in t.routes[j].slots)
    ensures Valid(t) ==> forall j :: 0 <= j < |t.routes| && t.routes[j].dir == file.dir && file.kind in t.routes[j].slots
                            ==> r == Some(t.routes[j])
  {
    match FindIndex(t.routes, file)
    case Some(i) => Some(t.routes[i])
    case None => None
  }

  // ---------------------------------------------------------------------------
  // add
  // ---------------------------------------------------------------------------

  /**
   The position this model gives a new route: after every route whose score
   is at least the new score, so ties keep discovery order. `sortedInsert`
   is not part of this model; `InsertAnywhereKeepsOrder` shows that any
   position among equal scores keeps the table sorted.
   */
  function InsertPos(rs: seq<AppRoute>, score: int): (k: nat)
    ensures k <= |rs|
    ensures forall j :: 0 <= j < k ==> rs[j].info.score >= score
    ensures SortedByScore(rs) ==> forall j :: k <= j < |rs| ==> rs[j].info.score < score
  {
    if |rs| == 0 || rs[0].info.score < score then 0
    else 1 + InsertPos(rs[1..], score)
  }

  /** The route created for the first file of a directory. */
  function NewRoute(file: RouteFile, resolve: Resolver): AppRoute
  {
    AppRoute(resolve(file.dir), file.dir, file.kind != Http, map[file.kind := file])
  }

  /** The existing route after `file` is attached to it. */
  function Attach(route: AppRoute, file: RouteFile): AppRoute
  {
    route.(slots := route.slots[file.kind := file], client := if file.kind != Http then true else route.client)
  }

  /** `rs` with `x` inserted at index `k`. */
  function InsertAt(rs: seq<AppRoute>, k: nat, x: AppRoute): (r: seq<AppRoute>)
    requires k <= |rs|
    ensures |r| == |rs| + 1 && r[k] == x
    ensures forall j :: 0 <= j < k ==> r[j] == rs[j]
    ensures forall j :: k < j < |r| ==> r[j] == rs[j - 1]
  {
    rs[..k] + [x] + rs[k..]
  }

  /** `rs` without the element at index `i` (`splice(i, 1)`). */
  function RemoveAt(rs: seq<AppRoute>, i: nat): (r: seq<AppRoute>)
    requires i < |rs|
    ensures |r| == |rs| - 1
    ensures forall j :: 0 <= j < i ==> r[j] == rs[j]
    ensures forall j :: i <= j < |r| ==> r[j] == rs[j + 1]
  {
    rs[..i] + rs[i + 1..]
  }

  /** `add(file)`: the new table and the route handed to the `onAdd` listeners. */
  function Add(t: AppRoutes, file: RouteFile, resolve: Resolver): (r: (AppRoutes, Event))
    ensures r.1.Added? && r.1.route.dir == file.dir
    ensures file.kind in r.1.route.slots && r.1.route.slots[file.kind] == file
    ensures r.1.route in r.0.routes
    ensures |r.0.routes| == |t.routes| || |r.0.routes| == |t.routes| + 1
  {
    match DirIndex(t.routes, file.dir)
    case Some(i) =>
      var updated := Attach(t.routes[i], file);
      var rs := t.routes[i := updated];
      assert rs[i] == updated;
      (AppRoutes(rs), Added(updated))
    case None =>
      var route := NewRoute(file, resolve);
      var k := InsertPos(t.routes, route.info.score);
      var rs := InsertAt(t.routes, k, route);
      (AppRoutes(rs), Added(route))
  }

  /**
   A file of a directory that already has a route updates that route in
   place: nothing moves, the record is kept, the other slots are kept, and
   `client` becomes set when the file is a component.
   */
  lemma AddToExistingRoute(t: AppRoutes, file: RouteFile, resolve: Resolver, i: nat)
    requires UniqueDirs(t.routes)
    requires i < |t.routes| && t.routes[i].dir == file.dir
    ensures var r := Add(t, file, resolve);
            && |r.0.routes| == |t.routes|
            && (forall j :: 0 <= j < |t.routes| && j != i ==> r.0.routes[j] == t.routes[j])
            && r.0.routes[i] == r.1.route
            && r.1.route.info == t.routes[i].info
            && r.1.route.client == (file.kind != Http || t.routes[i].client)
            && r.1.route.slots.Keys == t.routes[i].slots.Keys + {file.kind}
            && (forall k :: k in t.routes[i].slots && k != file.kind ==> r.1.route.slots[k] == t.routes[i].slots[k])
  {
    assert DirIndex(t.routes, file.dir) == Some(i);
  }

  /**
   The first file of a directory creates a route with the resolved record,
   only that file, and `client` unless the file is an endpoint; it is inserted
   after every route of higher or equal score and before every lower one.
   */
  lemma AddNewRoute(t: AppRoutes, file: RouteFile, resolve: Resolver)
    requires SortedByScore(t.routes)
    requires forall j :: 0 <= j < |t.routes| ==> t.routes[j].dir != file.dir
    ensures var r := Add(t, file, resolve);
            exists k :: 0 <= k <= |t.routes| && r.0.routes == InsertAt(t.routes, k, r.1.route)
              && (forall j :: 0 <= j < k ==> t.routes[j].info.score >= resolve(file.dir).score)
              && (forall j :: k <= j < |t.routes| ==> t.routes[j].info.score < resolve(file.dir).score)
    ensures var r := Add(t, file, resolve);
            && r.1.route.info == resolve(file.dir)
            && r.1.route.client == (file.kind != Http)
            && r.1.route.slots == map[file.kind := file]
  {
    var k := InsertPos(t.routes, resolve(file.dir).score);
    assert Add(t, file, resolve).0.routes == InsertAt(t.routes, k, NewRoute(file, resolve));
  }

  /**
   Whatever position ties are given, inserting between the strictly higher and
   the strictly lower scores keeps the table sorted.
   */
  lemma InsertAnywhereKeepsOrder(rs: seq<AppRoute>, route: AppRoute, k: nat)
    requires SortedByScore(rs) && k <= |rs|
    requires forall j :: 0 <= j < k ==> rs[j].info.score >= route.info.score
    requires forall j :: k <= j < |rs| ==> rs[j].info.score <= route.info.score
    ensures SortedByScore(InsertAt(rs, k, route))
  {
  }

  lemma InsertFreshDirKeepsUnique(rs: seq<AppRoute>, route: AppRoute, k: nat)
    requires UniqueDirs(rs) && k <= |rs|
    requires forall j :: 0 <= j < |rs| ==> rs[j].dir != route.dir
    ensures UniqueDirs(InsertAt(rs, k, route))
  {
    var out := InsertAt(rs, k, route);
    forall i, j | 0 <= i < j < |out| ensures out[i].dir != out[j].dir {
      if i < k && j > k { assert out[i] == rs[i] && out[j] == rs[j - 1]; }
    }
  }

  lemma AddKeepsValid(t: AppRoutes, file: RouteFile, resolve: Resolver)
    requires Valid(t)
    ensures Valid(Add(t, file, resolve).0)
  {
    var r := Add(t, file, resolve).0;
    match DirIndex(t.routes, file.dir)
    case Some(i) =>
      var prev := t.routes[i];
      assert WellFormedRoute(prev);
      assert r.routes == t.routes[i := Attach(prev, file)];
      assert WellFormedRoute(Attach(prev, file));
    case None =>
      var route := NewRoute(file, resolve);
      var k := InsertPos(t.routes, route.info.score);
      assert r.routes == InsertAt(t.routes, k, route);
      InsertAnywhereKeepsOrder(t.routes, route, k);
      InsertFreshDirKeepsUnique(t.routes, route, k);
      assert WellFormedRoute(route);
  }

  // ---------------------------------------------------------------------------
  // remove
  // ---------------------------------------------------------------------------

  /** The route after `file`'s slot is deleted, with `client` cleared once no component remains. */
  function Detach(route: AppRoute, kind: FileType): AppRoute
  {
    var slots := route.slots - {kind};
    if slots != map[] && !HasComponent(slots) then route.(slots := slots, client := false)
    else route.(slots := slots)
  }

  /** `remove(file)`: the new table and the route handed to the `onRemove` listeners, if any. */
  function Remove(t: AppRoutes, file: RouteFile): (r: (AppRoutes, Option<Event>))
    // nothing owns the file's slot: nothing changes and no listener fires
    ensures Find(t, file).None? <==> r.1.None?
    ensures Find(t, file).None? ==> r.0 == t
    ensures r.1.Some? ==> r.1.value.Removed? && r.1.value.route.dir == file.dir && file.kind !in r.1.value.route.slots
    ensures |r.0.routes| == |t.routes| || |r.0.routes| + 1 == |t.routes|
  {
    match FindIndex(t.routes, file)
    case None => (t, None)
    case Some(i) =>
      var updated := Detach(t.routes[i], file.kind);
      if updated.slots == map[] then (AppRoutes(RemoveAt(t.routes, i)), Some(Removed(updated)))
      else (AppRoutes(t.routes[i := updated]), Some(Removed(updated)))
  }

  /**
   Removing a file that some route holds deletes that slot only; the route is
   dropped exactly when no slot remains, the other routes keep their places,
   and `client` is cleared once no component slot remains.
   */
  lemma RemoveHeldFile(t: AppRoutes, file: RouteFile, i: nat)
    requires Valid(t)
    requires i < |t.routes| && t.routes[i].dir == file.dir && file.kind in t.routes[i].slots
    ensures var r := Remove(t, file);
            && r.1 == Some(Removed(r.1.value.route))
            && r.1.value.route.info == t.routes[i].info
            && r.1.value.route.slots == t.routes[i].slots - {file.kind}
            && (r.1.value.route.slots == map[] ==> r.0.routes == RemoveAt(t.routes, i))
            && (r.1.value.route.slots != map[] ==> r.0.routes == t.routes[i := r.1.value.route])
            && (r.1.value.route.slots != map[] ==> (r.1.value.route.client <==> HasComponent(r.1.value.route.slots)))
  {
    assert WellFormedRoute(t.routes[i]);
    assert FindIndex(t.routes, file) == Some(i);
  }

  lemma RemoveKeepsValid(t: AppRoutes, file: RouteFile)
    requires Valid(t)
    ensures Valid(Remove(t, file).0)
  {
    var r := Remove(t, file).0;
    match FindIndex(t.routes, file)
    case None =>
    case Some(i) =>
      var prev := t.routes[i];
      assert WellFormedRoute(prev);
      var updated := Detach(prev, file.kind);
      if updated.slots == map[] {
        assert r.routes == RemoveAt(t.routes, i);
      } else {
        assert r.routes == t.routes[i := updated];
        assert WellFormedRoute(updated);
      }
  }

  /** The client flag is exact in a valid table: it is set iff a component slot is present. */
  lemma ClientFlagExact(t: AppRoutes, i: nat)
    requires Valid(t) && i < |t.routes|
    ensures t.routes[i].client <==> (Layout in t.routes[i].slots || Error in t.routes[i].slots || Page in t.routes[i].slots)
  {
    assert WellFormedRoute(t.routes[i]);
  }

  /** Adding the first file of a directory and removing it again restores the table exactly. */
  lemma AddThenRemoveRestores(t: AppRoutes, file: RouteFile, resolve: Resolver)
    requires Valid(t)
    requires forall j :: 0 <= j < |t.routes| ==> t.routes[j].dir != file.dir
    ensures Remove(Add(t, file, resolve).0, file).0 == t
    ensures forall j :: 0 <= j < |Remove(Add(t, file, resolve).0, file).0.routes| ==>
              Remove(Add(t, file, resolve).0, file).0.routes[j].dir != file.dir
  {
    var route := NewRoute(file, resolve);
    var k := InsertPos(t.routes, route.info.score);
    var added := Add(t, file, resolve).0;
    assert added.routes == InsertAt(t.routes, k, route);
    FindInserted(t.routes, k, route, file);
    DetachNew(file, resolve);
    RemoveInserted(t.routes, k, route);
  }

  /** A route inserted for a directory no other route has is the one `FindIndex` finds. */
  lemma FindInserted(rs: seq<AppRoute>, k: nat, x: AppRoute, file: RouteFile)
    requires k <= |rs| && x.dir == file.dir && file.kind in x.slots
    requires forall j :: 0 <= j < |rs| ==> rs[j].dir != file.dir
    ensures FindIndex(InsertAt(rs, k, x), file) == Some(k)
  {
    var r := InsertAt(rs, k, x);
    var fi := FindIndex(r, file);
    assert forall j :: 0 <= j < k ==> r[j].dir != file.dir;
    assert fi.Some? by {
      assert r[k].dir == file.dir && file.kind in r[k].slots;
    }
  }

  /** Deleting the only slot of a new route leaves no slots. */
  lemma DetachNew(file: RouteFile, resolve: Resolver)
    ensures Detach(NewRoute(file, resolve), file.kind).slots == map[]
  {
    assert NewRoute(file, resolve).slots.Keys == {file.kind};
  }

  lemma RemoveInserted(rs: seq<AppRoute>, k: nat, x: AppRoute)
    requires k <= |rs|
    ensures RemoveAt(InsertAt(rs, k, x), k) == rs
  {
  }

  // ---------------------------------------------------------------------------
  // Queries
  // ---------------------------------------------------------------------------

  /** Whether `route` qualifies for `test(pathname, type)`: it holds the slot, if one is asked for. */
  predicate HasTypeOrAny(route: AppRoute, kind: Option<FileType>)
  {
    kind.None? || kind.value in route.slots
  }

  /** `test(pathname, type?)`: a linear scan in table order, stopping at the first match. */
  method Test(t: AppRoutes, pathname: string, kind: Option<FileType>, test: PatternTest) returns (found: bool)
    ensures found <==> exists i :: 0 <= i < |t.routes| && HasTypeOrAny(t.routes[i], kind)
                                   && test(t.routes[i].info, pathname)
  {
    var i := 0;
    while i < |t.routes|
      invariant 0 <= i <= |t.routes|
      invariant forall j :: 0 <= j < i ==> !(HasTypeOrAny(t.routes[j], kind) && test(t.routes[j].info, pathname))
    {
      var route := t.routes[i];
      if (kind.None? || kind.value in route.slots) && test(route.info, pathname) {
        return true;
      }
      i := i + 1;
    }
    return false;
  }

  predicate InBranch(route: AppRoute, dir: string)
  {
    IsPrefix(route.dir, dir)
  }

  /** `getBranch(route)`: the routes whose directory string is a prefix of `dir`, in table order. */
  function GetBranch(t: AppRoutes, dir: string): (r: seq<AppRoute>)
    ensures forall x :: x in r <==> x in t.routes && IsPrefix(x.dir, dir)
    ensures IsSubseq(r, t.routes)
    ensures SortedByScore(t.routes) ==> SortedByScore(r)
  {
    var r := Filter(t.routes, (x: AppRoute) => InBranch(x, dir));
    FilterIsSubseq(t.routes, (x: AppRoute) => InBranch(x, dir));
    SubseqKeepsOrder(r, t.routes);
    r
  }

  lemma {:induction false} SubseqKeepsOrder(a: seq<AppRoute>, b: seq<AppRoute>)
    requires IsSubseq(a, b)
    ensures SortedByScore(b) ==> SortedByScore(a)
    decreases |b|
  {
    if |a| > 0 && SortedByScore(b) {
      assert |b| > 0;
      assert SortedByScore(b[1..]) by {
        forall i, j | 0 <= i < j < |b[1..]| ensures b[1..][i].info.score >= b[1..][j].info.score {
          assert b[1..][i] == b[i + 1] && b[1..][j] == b[j + 1];
        }
      }
      if a[0] == b[0] && IsSubseq(a[1..], b[1..]) {
        SubseqKeepsOrder(a[1..], b[1..]);
        SubseqMembers(a[1..], b[1..]);
        forall i, j | 0 <= i < j < |a| ensures a[i].info.score >= a[j].info.score {
          if i == 0 {
            assert a[j] == a[1..][j - 1];
            assert a[j] in b[1..];
          } else {
            assert a[i] == a[1..][i - 1] && a[j] == a[1..][j - 1];
          }
        }
      } else {
        SubseqKeepsOrder(a, b[1..]);
      }
    }
  }

  /** A route directory that is a string prefix of `dir` always contributes its route to `getBranch(dir)`, including `dir`'s own. */
  lemma BranchHasAncestors(t: AppRoutes, dir: string, i: nat)
    requires i < |t.routes| && IsPrefix(t.routes[i].dir, dir)
    ensures t.routes[i] in GetBranch(t, dir)
  {
  }

  predicate HasLayout(route: AppRoute)
  {
    Layout in route.slots
  }

  /** The layout files of `routes`, in order. */
  function LayoutFiles(routes: seq<AppRoute>): (r: seq<RouteFile>)
    requires forall i :: 0 <= i < |routes| ==> Layout in routes[i].slots
    ensures |r| == |routes|
    ensures forall i :: 0 <= i < |r| ==> r[i] == routes[i].slots[Layout]
  {
    if |routes| == 0 then [] else [routes[0].slots[Layout]] + LayoutFiles(routes[1..])
  }

  /** `getLayoutBranch(route)`: the layout files of the branch, in table order. */
  function GetLayoutBranch(t: AppRoutes, dir: string): (r: seq<RouteFile>)
    ensures var withLayout := Filter(GetBranch(t, dir), HasLayout);
            |r| == |withLayout| && forall i :: 0 <= i < |r| ==> r[i] == withLayout[i].slots[Layout]
    ensures Valid(t) ==> forall i :: 0 <= i < |r| ==> r[i].kind == Layout && IsPrefix(r[i].dir, dir)
  {
    var withLayout := Filter(GetBranch(t, dir), HasLayout);
    var r := LayoutFiles(withLayout);
    assert forall i :: 0 <= i < |withLayout| ==> withLayout[i] in t.routes;
    r
  }

  /** `filterHasType(type)`: the routes holding slot `kind`, in table order. */
  function FilterHasType(t: AppRoutes, kind: FileType): (r: seq<AppRoute>)
    ensures forall x :: x in r <==> x in t.routes && kind in x.slots
    ensures IsSubseq(r, t.routes)
  {
    FilterIsSubseq(t.routes, (x: AppRoute) => kind in x.slots);
    Filter(t.routes, (x: AppRoute) => kind in x.slots)
  }

  /** `filterClientRoutes()`: the routes whose `client` flag is set. */
  function FilterClientRoutes(t: AppRoutes): (r: seq<AppRoute>)
    ensures forall x :: x in r <==> x in t.routes && x.client
    ensures IsSubseq(r, t.routes)
  {
    FilterIsSubseq(t.routes, (x: AppRoute) => x.client);
    Filter(t.routes, (x: AppRoute) => x.client)
  }

  /** In a valid table the `client` flag selects the same routes as "has a component slot". */
  lemma {:induction false} ClientRoutesAreComponentRoutes(rs: seq<AppRoute>)
    requires forall i :: 0 <= i < |rs| ==> WellFormedRoute(rs[i])
    ensures Filter(rs, (x: AppRoute) => x.client) == Filter(rs, IsClientRoute)
  {
    if |rs| > 0 {
      assert WellFormedRoute(rs[0]);
      ClientRoutesAreComponentRoutes(rs[1..]);
    }
  }

  // ---------------------------------------------------------------------------
  // Sequences of file events
  // ---------------------------------------------------------------------------

  datatype FileEvent = FileAdded(file: RouteFile) | FileRemoved(file: RouteFile)

  /** Replays file-watcher events against the table. */
  function Replay(t: AppRoutes, events: seq<FileEvent>, resolve: Resolver): AppRoutes
    decreases |events|
  {
    if |events| == 0 then t
    else
      var next := match events[0]
        case FileAdded(f) => Add(t, f, resolve).0
        case FileRemoved(f) => Remove(t, f).0;
      Replay(next, events[1..], resolve)
  }

  /** For every sequence of adds and removes the table stays sorted, one route per directory, flags exact. */
  lemma {:induction false} ReplayKeepsValid(t: AppRoutes, events: seq<FileEvent>, resolve: Resolver)
    requires Valid(t)
    ensures Valid(Replay(t, events, resolve))
    decreases |events|
  {
    if |events| > 0 {
      match events[0]
      case FileAdded(f) =>
        AddKeepsValid(t, f, resolve);
        ReplayKeepsValid(Add(t, f, resolve).0, events[1..], resolve);
      case FileRemoved(f) =>
        RemoveKeepsValid(t, f);
        ReplayKeepsValid(Remove(t, f).0, events[1..], resolve);
    }
  }

  // ---------------------------------------------------------------------------
  // Listeners
  // ---------------------------------------------------------------------------

  /** The registered `onAdd` / `onRemove` callbacks (each a `Set`), by identity. */
  datatype Listeners<L> = Listeners(onAdd: set<L>, onRemove: set<L>)

  /** `onAdd(callback)` followed by calling the returned disposer. */
  function OnAddThenDispose<L>(ls: Listeners<L>, callback: L): (r: Listeners<L>)
    ensures r.onAdd == ls.onAdd - {callback}
    ensures r.onRemove == ls.onRemove
  {
    var registered := ls.(onAdd := ls.onAdd + {callback});
    registered.(onAdd := registered.onAdd - {callback})
  }

  /** Each registered listener receives the route of the event it listens for. */
  function Deliveries<L(!new)>(ls: Listeners<L>, e: Event): (r: set<(L, AppRoute)>)
    ensures forall l :: (l, e.route) in r <==> (if e.Added? then l in ls.onAdd else l in ls.onRemove)
    ensures forall d :: d in r ==> d.1 == e.route
  {
    if e.Added? then set l | l in ls.onAdd :: (l, e.route)
    else set l | l in ls.onRemove :: (l, e.route)
  }

  // ---------------------------------------------------------------------------
  // Projections
  // ---------------------------------------------------------------------------

  /** The server-side loader of a slot: `ssrLoadModule(file.path.absolute)`. */
  datatype ServerLoader = SsrLoad(absolute: string)

  datatype Loadable = Loadable(loader: ServerLoader, canFetch: bool)

  datatype ServerLoadableRoute = ServerLoadableRoute(route: RouteInfo, slots: map<FileType, Loadable>)

  /**
   `toServerLoadable(route)`: the route record plus one fetchable loader per
   populated slot and nothing for the empty ones.
   */
  function ToServerLoadable(route: AppRoute): (r: ServerLoadableRoute)
    ensures r.route == route.info
    ensures r.slots.Keys == route.slots.Keys
    ensures forall t :: t in r.slots ==> r.slots[t] == Loadable(SsrLoad(route.slots[t].absolute), true)
  {
    ServerLoadableRoute(route.info, map t | t in route.slots :: Loadable(SsrLoad(route.slots[t].absolute), true))
  }
}
