# Vessel routing and build core, modelled in Dafny

Vessel is a Vite meta-framework. An app's route files are discovered on disk and kept in a
route table. The table is flattened into a client manifest that the browser decodes again.
At build time the bundler output is analysed: each route file is matched to its chunk, and
routes are classified as edge, node or deoptimized. The static and Vercel adapters then write
the pages, redirect stubs, routing rules and serverless functions, and the build prints its
route reports. On the server, small helpers build JSON and redirect responses, throw HTTP
errors and ship static loader data. The scaffolder edits a `package.json` in memory before
writing it.

This project models that core as pure Dafny functions over immutable datatypes:

- JavaScript objects and `Map`s are insertion-ordered association lists (`OrderedMap`).
  Assigning an existing key keeps its place; a new key goes at the end.
- JSON values and `JSON.stringify` are in `Json`.
- JavaScript string operations are in `Strings`: `replace` with a string pattern, `split`,
  `join` and `slice` with negative indices.
- One module per source file: `Routes`, `Manifest`, `Chunks`, `StaticAdapter`,
  `VercelAdapter`, `BuildLog`, `RoutesTree`, `StaticData`, `Response`, `Errors`,
  `StringCase`, `AppFactory`, `IndexHtml`, `PackageJson` and `KeyOrder`.
- Callbacks the core receives or imports from elsewhere become function parameters:
  - route resolution and URL-pattern tests;
  - the slash helpers and `trimExt`;
  - `resolveHandlerHttpMethod` and the static-data asset id;
  - the link and preload tag makers;
  - the user agent and the lock files found.
- Writing to disk and the console is modelled as the value that would be written.

Each operation's contract is paired with an independent account of what it should compute,
connected by a lemma over all inputs:

- the manifest decoder inverts the encoder;
- `toPascalCase` agrees with a one-pass scan and is idempotent;
- the route table stays sorted by score, with one route per directory and exact `client`
  flags, under any sequence of file events;
- `save` depends only on the dependency sets, not on insertion order.

## Model

Paths are relative to the repository root.

| member | source | states |
|---|---|---|
| Routes.DirIndex | packages/app/src/node/app/routes/app-routes.ts:58-60 | The index found is the first route of the directory; none means no route has that directory. |
| Routes.Find | packages/app/src/node/app/routes/app-routes.ts:115-119 | `find` answers a route of the file's directory that holds the file's slot, none iff no route does; in a valid table it is the unique such route. |
| Routes.InsertPos | packages/app/src/node/app/routes/app-routes.ts:79 | The position chosen for the new route keeps the table non-increasing by score: after every route of at least its score and, in a sorted table, before every lower one. Among equal scores the new route goes last, a choice of this model. |
| Routes.InsertAnywhereKeepsOrder | packages/app/src/node/app/routes/app-routes.ts:79 | Inserting a route anywhere between the routes of at least its score and those of at most its score keeps a sorted table sorted, so the choice among ties does not matter for order. |
| Routes.Add | packages/app/src/node/app/routes/app-routes.ts:57-85 | `add` hands listeners a route of the file's directory holding the file in its slot, present in the new table, which grows by at most one route. |
| Routes.AddToExistingRoute | packages/app/src/node/app/routes/app-routes.ts:57-76 | A file of a known directory updates that route in place: other routes unmoved, record kept, slots extended by the file's role, `client` set by a component file. |
| Routes.AddNewRoute | packages/app/src/node/app/routes/app-routes.ts:62-80 | The first file of a directory creates a route with the resolved record, only that slot and `client` unless it is an endpoint, inserted between higher-or-equal and lower scores (after equal scores, by the choice stated for `Routes.InsertPos`). |
| Routes.AddKeepsValid | packages/app/src/node/app/routes/app-routes.ts:57-85 | `add` keeps the table sorted by score, one route per directory, and every route's `client` flag exact. |
| Routes.Remove | packages/app/src/node/app/routes/app-routes.ts:87-102 | `remove` of a file no route holds changes nothing and notifies nobody; otherwise listeners get the directory's route without that slot. |
| Routes.RemoveHeldFile | packages/app/src/node/app/routes/app-routes.ts:88-97 | Removing a held file deletes exactly that slot and keeps the route's record. |
| Routes.RemoveKeepsValid | packages/app/src/node/app/routes/app-routes.ts:87-102 | `remove` keeps the table sorted, one route per directory, with exact `client` flags, dropping a route when it empties. |
| Routes.ClientFlagExact | packages/app/src/node/app/routes/app-routes.ts:62-96 | In a valid table `client` is set iff the route holds a layout, error or page file. |
| Routes.AddThenRemoveRestores | packages/app/src/node/app/routes/app-routes.ts:57-102 | Adding the first file of a directory and removing it again gives back the original table. |
| Routes.Test | packages/app/src/node/app/routes/app-routes.ts:104-113 | `test(pathname, type)` is true iff some route holding the asked slot (or any, when none is asked) matches the pathname. |
| Routes.GetBranch | packages/app/src/node/app/routes/app-routes.ts:121-124 | `getBranch` keeps, in table order, exactly the routes whose directory is a prefix of the given one; a sorted table gives a sorted branch. |
| Routes.GetLayoutBranch | packages/app/src/node/app/routes/app-routes.ts:126-130 | `getLayoutBranch` lists the layout file of each branch route that has one, in order; in a valid table each is a layout of an ancestor directory. |
| Routes.FilterHasType | packages/app/src/node/app/routes/app-routes.ts:136-138 | `filterHasType` keeps, in order, exactly the routes holding the slot. |
| Routes.FilterClientRoutes | packages/app/src/node/app/routes/app-routes.ts:132-134 | `filterClientRoutes` keeps, in order, exactly the routes with `client` set. |
| Routes.ClientRoutesAreComponentRoutes | packages/app/src/node/app/routes/app-routes.ts:132-134 | With well-formed routes, filtering on `client` selects the same routes as filtering on "has a component slot". |
| Routes.ReplayKeepsValid | packages/app/src/node/app/routes/app-routes.ts:47-55 | Any sequence of file additions and removals keeps the table valid. |
| Routes.OnAddThenDispose | packages/app/src/node/app/routes/app-routes.ts:144-149 | Registering an `onAdd` callback and calling the returned disposer leaves the callback unregistered. |
| Routes.Deliveries | packages/app/src/node/app/routes/app-routes.ts:82-84 | Each listener of the event's kind, and no other, receives the changed route, and nothing but that route is delivered. |
| Routes.ToServerLoadable | packages/app/src/node/app/routes/app-routes.ts:187-202 | `toServerLoadable` keeps the route record and gives each populated slot, and only those, a fetchable server loader of that file. |
| Manifest.ImportSource | packages/app/src/node/vite/files/files-plugin.ts:45 | A loader is written as a dynamic `import` of the file's root path. |
| Manifest.ClientRoutes | packages/app/src/node/vite/files/files-plugin.ts:38-40 | The manifest covers exactly the routes with a component slot, in table order. |
| Manifest.RouteLoadersArePresentSlots | packages/app/src/node/vite/files/files-plugin.ts:42-48 | Dropping the empty-slot placeholders leaves one loader per populated component slot, in component-type order. |
| Manifest.EncodeLoaders | packages/app/src/node/vite/files/files-plugin.ts:42-48 | The loader list has one loader per flagged slot across all entries. |
| Manifest.Entries | packages/app/src/node/vite/files/files-plugin.ts:54-64 | One entry per client route, in order. |
| Manifest.Encode | packages/app/src/node/vite/files/files-plugin.ts:37-64 | Each entry carries its route's id, pathname, score and one flag per held component slot; loaders match flags in number; `fetch` is the placeholder in build mode and empty otherwise. |
| Manifest.EncodedLoaderPosition | packages/app/src/node/vite/files/files-plugin.ts:42-48 | The loader of slot `t` of client route `i` sits exactly where the decoder's running index will look for it. |
| Manifest.LoaderAt | packages/app/src/client/init.ts:112 | Indexing the loader list past its end gives `undefined`. |
| Manifest.PlaceholderIncludesNothing | packages/app/src/client/init.ts:113 | Before the placeholder is replaced no loader position counts as fetchable. |
| Manifest.DecodeEntry | packages/app/src/client/init.ts:98-116 | A decoded route keeps the entry's triple, has a component exactly for each flagged slot and advances the loader index by the number of flags. |
| Manifest.DecodeEntries | packages/app/src/client/init.ts:95-120 | Entry `j` is decoded from the index reached after the flags of the entries before it. |
| Manifest.ReadManifest | packages/app/src/client/init.ts:91-123 | `readManifest` gives one route per entry with its triple and its flagged components; a flagged slot takes the loader at the count of flags before it, earlier entries' included. |
| Manifest.DecodedComponent | packages/app/src/client/init.ts:109-116 | In an encoded manifest each decoded component holds its own file's loader and is not fetchable. |
| Manifest.DecodeEncodedClients | packages/app/src/client/init.ts:98-122 | Decoding the encoding of any client route list gives the routes back in order, with their loaders, consuming every loader exactly once. |
| Manifest.RoundTrip | packages/app/src/client/init.ts:98-122 | The decoder inverts the encoder on every route table: client routes in table order, their triples, one component per populated component slot holding its loader. |
| Manifest.RegisterRedirects | packages/app/src/client/init.ts:33-39 | In production every key of the redirect map is registered with its target, in key order; in development, or with no map, nothing is. |
| Manifest.ReadManifestCalls | packages/app/src/client/init.ts:119-122 | Reading a manifest makes one `addAll` call; under hot reloading the entries' ids join the tracked set, which stays duplicate-free. |
| Manifest.HandleManifestChange | packages/app/src/client/init.ts:125-134 | Under hot reloading every tracked id is removed first, then a new manifest is read and only its ids stay tracked; otherwise nothing happens. |
| Chunks.ResolveChunks | packages/app/src/node/build/chunks.ts:137-147 | `resolveChunks` returns the bundle's chunk values, in order. |
| Chunks.ResolveChunksAndAssets | packages/app/src/node/build/chunks.ts:149-162 | Chunks and assets are split into two lists, each keeping bundle order. |
| Chunks.PartitionSizes | packages/app/src/node/build/chunks.ts:153-159 | Every bundle value lands in exactly one of the two lists. |
| Chunks.FindChunk | packages/app/src/node/build/chunks.ts:78-80 | A chunk is found iff one was built from that path, and the one found was. |
| Chunks.FindChunkFirst | packages/app/src/node/build/chunks.ts:78-80 | The chunk found is the first one built from the path. |
| Chunks.FoundConfigChunksMembers | packages/app/src/node/build/chunks.ts:77-83 | An assignment is made for exactly the configuration files whose path has a chunk, with that chunk. |
| Chunks.ResolveServerConfigChunks | packages/app/src/node/build/chunks.ts:71-86 | Each configuration kind maps to the chunk of the last file of that kind having one. |
| Chunks.SlotChunks | packages/app/src/node/build/chunks.ts:107-117 | A slot gets a chunk iff one was built from its file, and its chunk file is that chunk's file in the server output directory. |
| Chunks.ResolveServerRouteChunks | packages/app/src/node/build/chunks.ts:88-124 | One entry per route id; with distinct ids each route's entry holds its slot chunks. |
| Chunks.HandlerMethods | packages/app/src/node/build/chunks.ts:130-131 | The methods are exactly those some export resolves to. |
| Chunks.ResolveApiChunkMethods | packages/app/src/node/build/chunks.ts:126-135 | The methods form a duplicate-free subsequence of the method list: exactly those the endpoint chunk exports, and none without an endpoint chunk. |
| Chunks.ManualChunk | packages/app/src/node/build/chunks.ts:164-190 | Ids under `vite/` go to the `vite` chunk; ids outside `node_modules` get no vendor chunk; names come from the fixed vendor list. |
| Chunks.ManualChunkIsFirstMatchingRule | packages/app/src/node/build/chunks.ts:168-186 | Inside `node_modules` the chunk is named by the first matching rule in the order svelte, vue, react, solid, vessel. |
| Chunks.LoaderTypes | packages/app/src/node/build/chunks.ts:213-226 | A route's `serverLoader` record holds exactly the component types whose chunk exports `serverLoader`. |
| Chunks.LayoutsFromSpec | packages/app/src/node/build/chunks.ts:231-234 | The scan's layout state holds exactly the server layouts seen so far, split into edge and node ids. |
| Chunks.BranchNonEmpty | packages/app/src/node/build/chunks.ts:238-242 | A route sees a server branch iff a server layout seen so far prefixes its id. |
| Chunks.BranchHasEdge | packages/app/src/node/build/chunks.ts:245-248 | The branch has an edge layout iff one of its server layouts is edge-marked. |
| Chunks.NodeBranchMembers | packages/app/src/node/build/chunks.ts:249-251 | The node part of a branch is exactly its node layouts. |
| Chunks.ClassifyDecisions | packages/app/src/node/build/chunks.ts:238-253 | The three decisions of one iteration (server, edge, node branch) in closed form. |
| Chunks.EdgeRoutesStep | packages/app/src/node/build/chunks.ts:222-257 | One iteration adds the route's id to the edge routes iff it is classified edge. |
| Chunks.ServerLoadersStep | packages/app/src/node/build/chunks.ts:242-243 | One iteration records the route's loader types iff it loads on the server. |
| Chunks.DeoptimizedStep | packages/app/src/node/build/chunks.ts:245-254 | One iteration records the route with its node layouts iff it is deoptimized. |
| Chunks.ScanEdgeRoutes | packages/app/src/node/build/chunks.ts:207-260 | After the backward scan the edge-route set is characterised in closed form. |
| Chunks.ScanLoaderIds | packages/app/src/node/build/chunks.ts:207-260 | After the scan the ids with a `serverLoaders` entry are exactly those of the server routes. |
| Chunks.ScanLoaderValues | packages/app/src/node/build/chunks.ts:207-260 | With distinct ids, after the scan each server route's entry names its loading component types. |
| Chunks.ScanDeoptimized | packages/app/src/node/build/chunks.ts:207-260 | After the scan the deoptimized record holds exactly the deoptimized routes and their node layouts. |
| Chunks.ResolveServerRoutes | packages/app/src/node/build/chunks.ts:192-263 | A route id is an edge route iff some route with that id is classified edge. |
| Chunks.ApiEdgeIsEdgeRoute | packages/app/src/node/build/chunks.ts:222-223 | An endpoint exporting `EDGE` always makes its route an edge route. |
| Chunks.ServerLoadersSpec | packages/app/src/node/build/chunks.ts:242-243 | The `serverLoaders` keys are the ids of the server-loading routes; with distinct ids each holds the route's loader types. |
| Chunks.DeoptimizedSpec | packages/app/src/node/build/chunks.ts:245-254 | A route is recorded as deoptimized iff it is edge-marked and its branch has a node layout. |
| Chunks.DeoptimizedLayouts | packages/app/src/node/build/chunks.ts:249-254 | A deoptimized route is recorded with exactly the node layouts of its branch. |
| Chunks.DeoptimizedNotEdge | packages/app/src/node/build/chunks.ts:253-257 | With distinct ids a deoptimized route is an edge route only through an endpoint exporting `EDGE`. |
| StaticAdapter.TrailingSlash | packages/app/src/node/build/adapter/static/adapter.ts:16 | The trailing-slash policy defaults to on. |
| StaticAdapter.TrailingSlashTag | packages/app/src/node/build/adapter/static/adapter.ts:17-19 | The tag is present, as the fixed script, iff the policy is off. |
| StaticAdapter.TableOf | packages/app/src/node/build/adapter/static/adapter.ts:49-57 | The filled object has a key iff some pair has it, holding the last such pair's value; it is empty iff there are no pairs. |
| StaticAdapter.RedirectsTable | packages/app/src/node/build/adapter/static/adapter.ts:48-57 | Every redirect's `from` maps to its `to`, the last one winning. |
| StaticAdapter.DataTable | packages/app/src/node/build/adapter/static/adapter.ts:74-83 | Every data file's id hash maps to its content hash, the last one winning. |
| StaticAdapter.TableScriptTag | packages/app/src/node/build/adapter/static/adapter.ts:59-68 | The tag is empty iff the table is; otherwise its embedded string literal parses back to the table's JSON text. |
| StaticAdapter.RedirectsTagEmpty | packages/app/src/node/build/adapter/static/adapter.ts:59-68 | The redirects tag is empty iff there are no redirects. |
| StaticAdapter.DataTagEmpty | packages/app/src/node/build/adapter/static/adapter.ts:85-91 | The data hash tag is empty iff there are no data files. |
| StaticAdapter.HeadTagsOrder | packages/app/src/node/build/adapter/static/adapter.ts:113-134 | Head tags come as stylesheet, SSR css, asset and import preloads, dynamic-import prefetches and SSR head, empties dropped. |
| StaticAdapter.BodyTagsConcat | packages/app/src/node/build/adapter/static/adapter.ts:136-144 | The body tags are the five tags concatenated in order; dropping empty ones changes nothing. |
| StaticAdapter.PageHtmlFills | packages/app/src/node/build/adapter/static/adapter.ts:146-149 | In a template laid out around the three placeholders, the head tags, app HTML and body tags take their places. |
| StaticAdapter.HtmlFiles | packages/app/src/node/build/adapter/static/adapter.ts:97-183 | One page per render in order, then the sitemaps when any are configured. |
| StaticAdapter.WriteCalls | packages/app/src/node/build/adapter/static/adapter.ts:189-212 | As written: the HTML files, then the data files once per non-empty redirect or data list. |
| StaticAdapter.WriteCallsIntended | packages/app/src/node/build/adapter/static/adapter.ts:189-212 | The HTML files, then the redirect stubs when there are any, then the data files; every stub and data file is written. |
| StaticAdapter.RedirectStubNotWritten | packages/app/src/node/build/adapter/static/adapter.ts:196-202 | One redirect and no data: the second write gets an empty list, and the stub is never written. |
| VercelAdapter.UseTrailingSlash | packages/app/src/node/build/adapter/vercel/adapter.ts:38 | The Vercel trailing-slash policy defaults to off. |
| VercelAdapter.StaticOptions | packages/app/src/node/build/adapter/vercel/adapter.ts:38-41 | The wrapped static adapter gets the same policy. |
| VercelAdapter.RedirectSrc | packages/app/src/node/build/adapter/vercel/adapter.ts:56 | A final `/` becomes `/?`; any other source is kept. |
| VercelAdapter.Location | packages/app/src/node/build/adapter/vercel/adapter.ts:57-63 | External targets are kept; others get or lose their end slash by the policy. |
| VercelAdapter.RedirectRules | packages/app/src/node/build/adapter/vercel/adapter.ts:54-66 | One rule per redirect, in order, with its source, `Location` and status. |
| VercelAdapter.Overrides | packages/app/src/node/build/adapter/vercel/adapter.ts:68-73 | Exactly the rendered file names are keys, each mapped to its override path. |
| VercelAdapter.CloseFrom | packages/app/src/node/build/adapter/vercel/adapter.ts:26 | The lazy `.*?` stops at the first `]` not behind a line terminator, and finds none otherwise. |
| VercelAdapter.MatchLen | packages/app/src/node/build/adapter/vercel/adapter.ts:26 | A matcher match starts with `[` and lies within the text. |
| VercelAdapter.ReplaceMatchersNoBrackets | packages/app/src/node/build/adapter/vercel/adapter.ts:100 | A directory without brackets is its own pattern. |
| VercelAdapter.ReplaceMatchersSegment | packages/app/src/node/build/adapter/vercel/adapter.ts:26 | A `[name]` group becomes one capture group. |
| VercelAdapter.ReplaceMatchersOptional | packages/app/src/node/build/adapter/vercel/adapter.ts:26 | A `[[name]]` group becomes one capture group. |
| VercelAdapter.EndpointRule | packages/app/src/node/build/adapter/vercel/adapter.ts:97-102 | An endpoint's rule matches its directory with matchers as capture groups and routes to the directory. |
| VercelAdapter.EndpointRules | packages/app/src/node/build/adapter/vercel/adapter.ts:97-103 | One rule per endpoint, in order. |
| VercelAdapter.Routes | packages/app/src/node/build/adapter/vercel/adapter.ts:75-183 | The rules are laid out as trailing-slash rules for the policy, redirects, immutable cache, `filesystem`, endpoints, and the fallback last. |
| VercelAdapter.NodeConfig | packages/app/src/node/build/adapter/vercel/adapter.ts:131-134 | A configured function key wins; every other key keeps its default. |
| VercelAdapter.EdgeConfig | packages/app/src/node/build/adapter/vercel/adapter.ts:126-130 | The edge defaults, followed by the env var list only when it is given. |
| VercelAdapter.EndpointFunction | packages/app/src/node/build/adapter/vercel/adapter.ts:105-136 | No function without an http chunk exporting a method; otherwise edge iff all are edge or `EDGE` is exported, with the matching config and the allowed methods in export order. |
| VercelAdapter.NoneAllowed | packages/app/src/node/build/adapter/vercel/adapter.ts:109-113 | No method is allowed iff no export is an HTTP method. |
| VercelAdapter.QuotedListRoundTrip | packages/app/src/node/build/adapter/vercel/adapter.ts:206 | The method list written into the function code reads back as the methods, in order. |
| BuildLog.BadLinkBlocks | packages/app/src/node/build/log.ts:17-21 | Two lines per bad link plus one location line per link whose route has a page. |
| BuildLog.BadLinkBlocksAppend | packages/app/src/node/build/log.ts:17-21 | The links' blocks follow one another in map order: the blocks of concatenated maps are the concatenated blocks. |
| BuildLog.BadLinkBlocksSingle | packages/app/src/node/build/log.ts:18-20 | One link's block is `- <pathname>`, `  - Reason: <reason>`, then `  - Location: <page root>` exactly when its route has a page. |
| BuildLog.BadLinkPathnameLines | packages/app/src/node/build/log.ts:17-18 | The `- ` lines of the blocks are the map's pathnames, in map order. |
| BuildLog.BadLinkReasonLines | packages/app/src/node/build/log.ts:17-19 | The reason lines of the blocks are the links' reasons, in map order. |
| BuildLog.BadLinkLocationLines | packages/app/src/node/build/log.ts:17-20 | The location lines are the page roots of exactly the links whose route has a page, in map order. |
| BuildLog.LogBadLinks | packages/app/src/node/build/log.ts:8-24 | Nothing for no bad links; otherwise a blank line, the `BAD LINKS` heading, a blank line, then the blocks. |
| BuildLog.ServerRouteLines | packages/app/src/node/build/log.ts:48-50 | One `- <dir>` line per server route, last route first. |
| BuildLog.Sections | packages/app/src/node/build/log.ts:26-77 | Exactly the sections shown at the level, in print order. |
| BuildLog.LogRoutesList | packages/app/src/node/build/log.ts:26-83 | Something is printed iff the level is `info`, or `warn` with redirects, or there are bad links; the output then ends with the blank line of the closing `console.log()`. |
| BuildLog.SectionTitles | packages/app/src/node/build/log.ts:29-77 | The title lines of printed sections are the headings' titles in order; no entry line or blank line is taken for a title. |
| BuildLog.SectionPlaced | packages/app/src/node/build/log.ts:29-77 | Each printed section's title is followed by a blank line and that section's entry lines. |
| BuildLog.LogRoutesListTitles | packages/app/src/node/build/log.ts:26-83 | The title lines of the log are the shown sections' titles, each once, in print order. |
| BuildLog.LogRoutesListShownTitles | packages/app/src/node/build/log.ts:26-83 | A section's title is printed iff the section is shown at the level. |
| BuildLog.LogRoutesListSection | packages/app/src/node/build/log.ts:26-83 | Every shown section's title is followed by a blank line and exactly its entry lines. |
| RoutesTree.FilteredLinks | packages/app/src/node/build/log.ts:121-131 | Exactly the bad links, plus the redirects unless `error`, plus at `info` the rendered links and server pathnames; below `error` each link once, in the order it first appears in the spread lists. |
| Seqs.Dedup | packages/app/src/node/build/log.ts:124-131 | `new Set([...])`: every element once, as a subsequence of the input, in the order of first occurrence. |
| RoutesTree.FindChild | packages/app/src/node/build/log.ts:138 | The first child with the name, or none iff no child has it. |
| RoutesTree.Classify | packages/app/src/node/build/log.ts:148-164 | Bad link first, then redirect, then route, static iff rendered and `+http` iff a server endpoint instead. |
| RoutesTree.RedirectPath | packages/app/src/node/build/log.ts:151-155 | The shown target is `to` without its first and last characters. |
| RoutesTree.Apply | packages/app/src/node/build/log.ts:148-164 | A mark sets its own flags and keeps what earlier links set. |
| RoutesTree.InsertNames | packages/app/src/node/build/log.ts:133-146 | Insertion keeps existing children's names in order and adds at most the first segment, at the end. |
| RoutesTree.InsertKeepsUnique | packages/app/src/node/build/log.ts:137-146 | Sibling names stay unique at every level. |
| RoutesTree.InsertThenLookup | packages/app/src/node/build/log.ts:133-165 | After an insertion the path leads to the node reached or created, with the mark applied. |
| RoutesTree.InsertKeepsLookup | packages/app/src/node/build/log.ts:133-146 | Inserting never removes a node another path reaches. |
| RoutesTree.BuildTree | packages/app/src/node/build/log.ts:105-165 | The tree is rooted at `.` with unique sibling names. |
| RoutesTree.EveryLinkHasNode | packages/app/src/node/build/log.ts:133-146 | Every inserted link has a node in the finished tree. |
| RoutesTree.RoutesTreeOf | packages/app/src/node/build/log.ts:105-165 | The tree has unique sibling names and a node for every selected link. |
| RoutesTree.LinesCount | packages/app/src/node/build/log.ts:175-211 | `print` emits one line per node. |
| RoutesTree.LinesPrefix | packages/app/src/node/build/log.ts:175-211 | Every line starts with the prefix its parent was given. |
| RoutesTree.ChildLineAt | packages/app/src/node/build/log.ts:178-194 | A child's line follows its earlier siblings' subtrees and starts with the last-branch symbol iff it is the last sibling and has no children. |
| RoutesTree.PrintTree | packages/app/src/node/build/log.ts:213-224 | Nothing for an empty tree; otherwise the `ROUTES` heading exactly at `info`, then the root line, which carries the page icon iff `/` was rendered, then the lines of the root's children at depth 1, one per node. |
| RoutesTree.TreeHasChildren | packages/app/src/node/build/log.ts:133-165 | The root of the built tree gets a child exactly when some selected link has a directory segment below the root. |
| RoutesTree.LogRoutesTree | packages/app/src/node/build/log.ts:85-225 | `logRoutesTree` prints the tree built from the links selected at the level: something is printed iff some selected link reaches below the root, and then the root line, with the page icon iff `/` was rendered, follows the heading shown only at `info`. |
| StaticData.StaticLoaderInputOf | packages/app/src/server/static-data.ts:14-24 | The input carries the URL's pathname, the route and the match groups; it fails iff the route does not match. |
| StaticData.StaticLoaderDataMap | packages/app/src/server/static-data.ts:26-47 | Each key holds the value of its last assignment. |
| StaticData.DataPairsMembers | packages/app/src/server/static-data.ts:31-44 | A key is assigned iff some component with non-empty static data resolves to it, and only non-empty data is stored. |
| StaticData.DataMapKeys | packages/app/src/server/static-data.ts:31-43 | The map has a key iff some component with non-empty static data resolves to it, and every stored value is non-empty. |
| StaticData.DataTable | packages/app/src/server/static-data.ts:49-57 | The table holds exactly the map's entries with non-empty data. |
| StaticData.DataTableGet | packages/app/src/server/static-data.ts:52-57 | The table answers a lookup as the map does when the data is non-empty, and not at all otherwise. |
| StaticData.StaticDataScriptTag | packages/app/src/server/static-data.ts:49-66 | Always a script tag, whose string literal parses back to the table's JSON text. |
| Response.HeadersOf | packages/app/src/server/http/response.ts:23 | `new Headers(init)` holds exactly the lower-cased names of the supplied pairs, once each. |
| Response.JsonInit | packages/app/src/server/http/response.ts:21 | A number becomes the status; an object keeps its status and headers; none gives the default status. |
| Response.WithJsonContentType | packages/app/src/server/http/response.ts:23-26 | An existing `Content-Type` is kept, a missing one becomes JSON, and other headers are untouched. |
| Response.JsonResponse | packages/app/src/server/http/response.ts:20-32 | The body serialises the data and the status follows the init; `Content-Type` is JSON unless supplied; other headers are kept. |
| Response.Redirect | packages/app/src/server/http/response.ts:42-58 | Null body, status 302 unless given, `Location` set to the URL whatever was supplied, other headers kept. |
| Response.IsRedirectResponse | packages/app/src/server/http/response.ts:64-67 | True iff the response's status is 301, 302, 303, 307 or 308. |
| Response.RedirectRecognised | packages/app/src/server/http/response.ts:42-67 | A `redirect` whose init gives no status is recognised as a redirect (status 302); when the init gives a status, recognition follows it exactly as for a `json` response with the same init. |
| Response.JsonDefaultNotRedirect | packages/app/src/server/http/response.ts:64-67 | A `json` response without init has status 200, only the JSON content type, and is not a redirect. |
| Errors.Invariant | packages/app/src/server/http/errors.ts:15-19 | Throws a 400 error with the message (default "invalid falsy value") iff the value is `false`, `null` or `undefined`. |
| Errors.Validate | packages/app/src/server/http/errors.ts:24-26 | Throws a 422 error with the message (default "validation failed") iff the condition is false. |
| Errors.HttpErrorThrow | packages/app/src/server/http/errors.ts:32-38 | Always throws, carrying its arguments. |
| Errors.HandleHttpError | packages/app/src/server/http/errors.ts:40-49 | An `HttpError` becomes a JSON response of its message and data with its init's status and headers, typed `application/json` unless the init supplies a content type; anything else becomes a JSON 500 "internal server error". |
| Errors.HandledHelperErrors | packages/app/src/server/http/errors.ts:15-49 | A handled `invariant` or `validate` failure answers 400 or 422 with its message and the JSON content type. |
| StringCase.Words | packages/app/src/shared/utils/string.ts:1-4 | The split gives at least one piece, none holding a separator. |
| StringCase.WordsAreTheLetters | packages/app/src/shared/utils/string.ts:1-4 | The pieces, joined, are exactly the string's non-separator characters. |
| StringCase.JoinMapped | packages/app/src/shared/utils/string.ts:8-14 | The mapped words joined hold no separator. |
| StringCase.ToPascalCase | packages/app/src/shared/utils/string.ts:3-15 | The result holds no whitespace, `-` or `_`. |
| StringCase.PascalCaseIsScan | packages/app/src/shared/utils/string.ts:3-15 | `toPascalCase` equals the one-pass scan that drops separators and upper-cases each word start. |
| StringCase.ScanStartsUpper | packages/app/src/shared/utils/string.ts:3-15 | The result's first character is already upper case. |
| StringCase.PascalCaseIdempotent | packages/app/src/shared/utils/string.ts:3-15 | Applying `toPascalCase` twice is applying it once. |
| StringCase.PascalCaseOfWord | packages/app/src/shared/utils/string.ts:3-15 | A single word only has its first letter upper-cased. |
| StringCase.UpperFirst | packages/app/src/shared/utils/string.ts:17-19 | Only the first character changes, to its upper case. |
| StringCase.LowerFirst | packages/app/src/shared/utils/string.ts:21-23 | Only the first character changes, to its lower case. |
| StringCase.FirstLetterRoundTrip | packages/app/src/shared/utils/string.ts:17-23 | Each helper undoes the other up to case, and each is idempotent. |
| AppFactory.KeepVessel | packages/app/src/node/app/create/app-factory.ts:42 | Exactly the plugins carrying `vessel` pass, one per such option. |
| AppFactory.VesselPlugins | packages/app/src/node/app/create/app-factory.ts:40-42 | Exactly the vessel plugins of the one-level-flattened list. |
| AppFactory.KeepVesselAppend | packages/app/src/node/app/create/app-factory.ts:42 | The filter keeps each option's plugin independently and in order: it distributes over concatenation. |
| AppFactory.KeepVesselSingle | packages/app/src/node/app/create/app-factory.ts:42 | One option passes exactly when it is a plugin carrying `vessel`. |
| AppFactory.FlatAppend | packages/app/src/node/app/create/app-factory.ts:41 | `flat()` distributes over concatenation. |
| AppFactory.VesselPluginsAppend | packages/app/src/node/app/create/app-factory.ts:40-42 | The plugins of concatenated lists are those of each list in turn; an array element contributes the vessel plugins directly inside it and none from deeper arrays. |
| AppFactory.OrderPlugins | packages/app/src/node/app/create/app-factory.ts:44-48 | A rearrangement grouped `pre`, unenforced, `post`, keeping input order within each group. |
| AppFactory.GroupsPartition | packages/app/src/node/app/create/app-factory.ts:44-48 | The `pre`, unenforced and `post` groups together hold every plugin exactly as often as the input does. |
| AppFactory.AppPlugins | packages/app/src/node/app/create/app-factory.ts:40-48 | The vessel plugins of the flattened list, each as often as there, grouped `pre`, unenforced, `post`, keeping their order within each group. |
| AppFactory.MissingEntries | packages/app/src/node/app/create/app-factory.ts:82-100 | `create` fails iff the client or server entry is unset or empty. |
| AppFactory.IncludedFiles | packages/app/src/node/app/create/app-factory.ts:119-122 | All route files under SSR, else all but the http files. |
| AppFactory.AppEntries | packages/app/src/node/app/create/app-factory.ts:116-130 | A key `nodes/<name>` exists iff an included file maps to it, and holds such a file's path. |
| AppFactory.NoHttpEntriesWithoutSsr | packages/app/src/node/app/create/app-factory.ts:119-122 | Without SSR every entry is the path of a non-http file. |
| IndexHtml.InsertBefore | packages/app/src/node/vite/core/index-html.ts:28-33 | The script goes in front of the first head placeholder, which stays; HTML without it is unchanged. |
| IndexHtml.ReadIndexHtml | packages/app/src/node/vite/core/index-html.ts:21-36 | An app template without the version marker, read outside dev mode, is returned as is. |
| IndexHtml.PlaceholdersOnce | packages/app/src/node/vite/core/index-html.ts:4-19 | In a separable template each placeholder occurs exactly once, at its own place. |
| IndexHtml.InsertOfRender | packages/app/src/node/vite/core/index-html.ts:28-33 | The dev insert only grows the text before the head placeholder. |
| IndexHtml.VersionOfRender | packages/app/src/node/vite/core/index-html.ts:35 | The version replaces the generator tag's marker. |
| IndexHtml.TransformRendered | packages/app/src/node/vite/core/index-html.ts:28-35 | The generator's marker becomes the version, in dev the script goes before the head placeholder, and nothing else changes. |
| IndexHtml.DefaultSeparable | packages/app/src/node/vite/core/index-html.ts:4-19 | The default template is separable, and its version marker is the first one. |
| IndexHtml.DefaultPlaceholdersOnce | packages/app/src/node/vite/core/index-html.ts:4-19 | The default template holds each placeholder exactly once. |
| IndexHtml.DefaultIndexHtmlRead | packages/app/src/node/vite/core/index-html.ts:21-36 | Without its own file an app gets the default template with the version and, in dev, the client script before the head placeholder. |
| IndexHtml.DefaultReadKeepsPlaceholders | packages/app/src/node/vite/core/index-html.ts:21-36 | The HTML read without an app file holds each placeholder exactly once, in either mode. |
| PackageJson.OrEmpty | packages/create/src/Package.js:45-47 | A missing or null section becomes `{}`, appended when absent; other members are untouched. |
| PackageJson.ReadSections | packages/create/src/Package.js:45-47 | The three sections defaulted; the result is editable iff each was absent, null or an object. |
| PackageJson.Read | packages/create/src/Package.js:40-48 | The parsed file or the skeleton, sections defaulted, other members kept; editable iff each section was absent, null or an object. |
| PackageJson.ReadMissingFile | packages/create/src/Package.js:41-47 | Without a file: the skeleton then the three empty sections, in order. |
| PackageJson.SectionsAppended | packages/create/src/Package.js:45-47 | Missing sections are appended in the order scripts, dependencies, devDependencies. |
| PackageJson.AddField | packages/create/src/Package.js:54-58 | The field is assigned iff it was missing or falsy or `overwrite` is set; nothing else changes. |
| PackageJson.AddFieldKeepsFirst | packages/create/src/Package.js:54-58 | Without `overwrite` a truthy field survives a second `addField`, and `hasField` sees the first value. |
| PackageJson.SetIn | packages/create/src/Package.js:94 | Assigning inside a section updates that entry only and keeps member order. |
| PackageJson.HasScriptName | packages/create/src/Package.js:63-67 | True iff `getScript` finds the name. |
| PackageJson.HasScript | packages/create/src/Package.js:72-74 | True iff some script's value passes the test. |
| PackageJson.AddScript | packages/create/src/Package.js:89-96 | Stored iff the name is free (or `overwrite`) and no script passes the test; only that script can change. |
| PackageJson.AddScriptSettles | packages/create/src/Package.js:89-96 | A script added with a test it passes satisfies the test afterwards, so repeating the call changes nothing. |
| PackageJson.AddDep | packages/create/src/Package.js:102-107 | The version goes into the chosen section iff the entry is falsy or `overwrite`; the other section and other entries are untouched. |
| PackageJson.HasDep | packages/create/src/Package.js:131-133 | True iff either section has a truthy entry. |
| PackageJson.AddDepThenHasDep | packages/create/src/Package.js:102-133 | After `addDep` with a non-empty version `hasDep` holds; without `overwrite` a truthy entry is kept. |
| PackageJson.VesselDepVersion | packages/create/src/Package.js:113-117 | A link path (prefixed `link:` for yarn) when linking, else `workspace:*` or a caret range on the version. |
| PackageJson.AddVesselDep | packages/create/src/Package.js:112-118 | `@vessel-js/<name>` is set in `devDependencies`; nothing else changes. |
| PackageJson.AddVesselDepSettles | packages/create/src/Package.js:112-118 | Afterwards the dependency is present, and a second call changes nothing. |
| PackageJson.Save | packages/create/src/Package.js:135-144 | Both dependency sections are sorted by key, `dependencies` dropped iff empty, everything else kept; the members keep their order, with only `dependencies` missing when it was dropped. |
| PackageJson.SortSections | packages/create/src/Package.js:136-137 | The two sections are replaced by their sorted forms in place. |
| PackageJson.Omit | packages/create/src/Package.js:139-141 | An `undefined` member is left out of the output; all others are kept with their values and in their order. |
| PackageJson.SaveIgnoresInsertionOrder | packages/create/src/Package.js:135-144 | The saved object depends only on which entries each section holds, not on the order they were added. |
| PackageJson.SaveKeepsVersions | packages/create/src/Package.js:135-144 | Saving keeps every dependency's version. |
| PackageJson.LockFileManager | packages/create/src/Package.js:147-161 | The first lock file found, in the order npm, yarn, pnpm; none iff there are none. |
| PackageJson.UserAgentInfo | packages/create/src/Package.js:164-173 | None iff the agent is unset or empty; otherwise the name is a prefix of the agent holding no space or `/`, and the version holds no `/`. |
| PackageJson.Manager | packages/create/src/Package.js:31-34 | The lock file's manager, else the user agent's name, else `npm`. |
| PackageJson.UserAgentRoundTrip | packages/create/src/Package.js:164-173 | A `<name>/<version> <rest>` agent yields that name and version, and the name is the manager when there are no lock files. |
| KeyOrder.Sort | packages/create/src/Package.js:136-137 | The same members, sorted by key. |
| KeyOrder.SortKeepsValues | packages/create/src/Package.js:136-137 | Sorting keeps every key's value and the member count. |
| KeyOrder.SortCanonical | packages/create/src/Package.js:136-137 | The sorted object depends only on the members; sorting a sorted object changes nothing. |
| KeyOrder.SortedDetermined | packages/create/src/Package.js:136-137 | Two key-sorted objects with the same members are equal. |
| Json.StringLiteralRoundTrip | packages/app/src/node/build/adapter/static/adapter.ts:63-67 | Parsing the string literal written for any string gives the string back. |
| Strings.ReplaceFirst | packages/app/src/node/vite/core/index-html.ts:29-35 | `replace` with a string pattern replaces the first occurrence only, and leaves a string without it unchanged. |
| Strings.ReplaceFirstAt | packages/app/src/node/build/adapter/static/adapter.ts:146-149 | The occurrence right after a prefix that holds none is the one replaced. |
| Strings.SplitJoin | packages/create/src/Package.js:167-168 | Joining the pieces of a split with the separator gives back the string. |
| Strings.ConcatNonEmpty | packages/app/src/node/build/adapter/static/adapter.ts:143-144 | Dropping empty strings does not change a separator-free join. |
| OrderedMap.Put | packages/create/src/Package.js:56 | `obj[k] = v` sets the key, leaves the others alone, keeps an existing key's place and appends a new key. |
| OrderedMap.FromPairs | packages/app/src/node/app/create/app-factory.ts:124-127 | Assigning pairs in order leaves each key with its last value. |

## Left out

- Console output, terminal colours (`kleur`), spinners and timing: the reports are modelled as their plain text lines.
- File-system reads and writes, `esbuild` bundling, directory copies and `Promise.all` concurrency.
  - The adapters' results are the files and rules they would write.
  - `readIndexHtmlFile` and `read` take the file's contents, or its absence, as a parameter.
- Route resolution, URL patterns and `execRouteMatch`, the slash helpers, `isLinkExternal`, `trimExt`, the static-data asset id, `resolveHandlerHttpMethod`, `regex.test`, `getVersion` and the user agent: all of these enter as parameters.
- The method list (`ALL_HTTP_METHODS`) and the component-type order come from modules that are not part of this model. They are parameters or fixed choices: components in the order layout, error, page.
- The source calls the endpoint role `'api'` in some files and `'http'` in others; both are one role here.
- Vite's `mergeConfig`, the plugins' `config` and `configureApp` hooks, and entry path normalisation in `create`.
- The development request handler and the `URLPattern` polyfill.
- Floating-point numbers: JSON numbers are integers.
- Unicode case mapping: upper- and lower-casing are the ASCII mappings. The `\s` class is the ASCII and Unicode space characters listed in `StringCase.IsWhitespace`.
- `$` substitution patterns in `String.prototype.replace` replacement text.
- Header value normalisation in `Headers`, and `redirect`'s mutation of the caller's init object.
- JavaScript's ordering of integer-like object keys before other keys.
- The two-space indentation `save` writes: `Save` gives the object that is serialised.
- `sortObjectKeys` lives in `packages/create/src/utils/obj.js`, which is not part of this model. `KeyOrder` compares keys by code point. This equals the UTF-16 code-unit order of `Array.prototype.sort` except between characters above U+FFFF and those from U+E000 to U+FFFF.
- Routes.InsertPos: `sortedInsert` comes from a utility module that is not part of this model; a route whose score ties existing ones is placed after them by choice, and `Routes.InsertAnywhereKeepsOrder` shows that any position among the ties keeps the table sorted by score.
- PackageJson.Save: the function gives the object that is written out and leaves the package unchanged. `save` also assigns the sorted sections back to the package, and sets an empty `dependencies` to `undefined` (Package.js:136-141). A later `save`, or an `addDep` without `dev`, would then see `dependencies` as `undefined`; such calls after a `save` are not modelled.
- PackageJson.AddDep: a call with an omitted version (which stores `undefined`) is not modelled; the version is a string.
- PackageJson.Read: a `package.json` whose top level is not an object is not modelled.
- PackageJson.AddScript: the editing members require `Shaped`, that is, all three sections are objects; `read` establishes this exactly when each section was absent, `null` or an object, as `PackageJson.Read` states.
- IndexHtml.ReadIndexHtml: for an app's own template the contract states only the unedited case. The edits are stated for templates laid out around their placeholders (`IndexHtml.TransformRendered`) and for the default template.
- IndexHtml.DefaultReadKeepsPlaceholders: requires that the version holds no `@`, so that the version cannot forge a placeholder.
- AppFactory.AppEntries: states that each key holds the path of a file that maps to it, not that it is the last such file (the object assignment keeps the last).
- Chunks.ResolveServerRoutes: `deoptimized` is keyed by route position rather than by route object. The `serverLoaders` values are stated for distinct route ids. A route slot with no server chunk reads as a chunk without exports (`Chunks.Exports`), where the source's loop (packages/app/src/node/build/chunks.ts:217-228) would throw a `TypeError`; the bundler emits a chunk for every route file, so this arises only from inconsistent input.
- Response.JsonResponse: `new Response` throws a `RangeError` for a status outside 200 to 599, and a `TypeError` for a body with status 204, 205 or 304; the model builds the response for every status.
- Response.Redirect: `new Response` throws a `RangeError` for a status outside 200 to 599; the model builds the response for every status.
- Json.Unescape: a `\uXXXX` escape of a surrogate half (D800 to DFFF) is rejected, because Dafny's `char` holds no surrogate halves; an escaped surrogate pair is not joined into one character.
- BuildLog.LogRoutesList: the entry lines of the static pages, redirects and not-found links are stated as starting with `- ` and as placed under their section's title; their remaining text is given by the section functions without a separate contract.
- VercelAdapter.ReplaceMatchersSegment: the matcher regular expression is stated for the bracket forms `[name]` and `[[name]]` whose names hold no `]` or line terminator; other inputs follow the model's scan without a stated property.
- Manifest.HandleManifestChange: listener delivery is synchronous here; the source's asynchronous callbacks are not modelled.

## Findings

| source | as written | input that shows it | evidently intended | confidence | as-written member | corrected member |
|---|---|---|---|---|---|---|
| packages/app/src/node/build/adapter/static/adapter.ts:196-202 | When there are redirect files, the second `writeFiles` call is handed `dataFiles` | One static redirect and no data files: the second call writes an empty list and the redirect stub HTML is never written | Write `redirectFiles` in that call, so every redirect stub reaches the client directory | not executed | StaticAdapter.WriteCalls (shown by StaticAdapter.RedirectStubNotWritten) | StaticAdapter.WriteCallsIntended |
