# go-router: the segment trie, matching and parameter extraction

This project models the core of `go-router`, a small in-process HTTP request
router. The model covers three parts.

- **Building the trie** (`node.go`). Route declarations are compiled into a
  trie keyed by path segment. Each `:name` segment collapses onto the one
  parameter key `"?"`. A `*` segment flags the node it is reached at as a
  catch-all. Groups pass their template prefix and middleware down to their
  children.
- **Matching** (`node.go`, `router.go`). A request path is resolved to a node.
  An exact literal child wins over the parameter child. When the walk stalls,
  or ends at a node without handlers, the answer is the nearest catch-all at
  or above that point. The router answers 404 when no node is found and 405
  when the node has no handler for the method. Otherwise it calls the handler.
- **Parameters** (`request.go`). The matched node's template is re-scanned
  against the request path to recover parameter values by name. The result is
  computed lazily and cached in the request.

The model is written in Dafny as pure functions over immutable values:

- A trie node is a `datatype`. Go's parent pointer becomes the chain of nodes
  from the root down to the node (`seq<Node>`). Climbing to the parent drops
  the chain's last element.
- Handlers and middleware are symbolic. A declared one is an opaque id. The
  closures `node.go` builds become data:
  - `Wrapped(layer, next)` for a handler inside a middleware layer;
  - `Compose(outer, inner)` for a combined middleware.
- Go's panics on out-of-range slices in `parse` become the precondition
  `ParseDefined`.
- Strings are `seq<char>`. Go's `strings.IndexByte` is modelled by
  `Strings.IndexByte`. The only bytes it searches for are `:` and `/`, which
  never occur inside a multi-byte UTF-8 sequence, so reading bytes as
  characters changes nothing.

Each operation has an independent reference definition, and a lemma connects
the two.

- **Trie construction.** The reference is a *table*. The declarations flatten
  into a list of effects: bind a handler at a key path, or flag a key path as
  a catch-all. The node that `GenerateFromRoutes` leaves at any key path is
  those effects applied in declaration order (`Table.Overlay`).
- **Matching.** The reference is a plain *walk* down the split path, followed
  by the catch-all fallback (`Matching.Match`). Go interleaves these two in
  its recursion; the reference keeps them apart.
- **Parameters.** The reference is the template rendered with values put in
  its parameter positions (`Templates.Bindings`). `Parse` is proved to invert
  that instantiation.

End-to-end theorems (`serving.dfy`) combine the three. Take a router that
declares only one route, whose template has literal and `:name` segments. A
request that puts non-empty, slash-free values in the parameter positions
reaches the route's handler, and the handler reads those values back by name.
The same path with another method is answered 405. With several routes, a
literal child is tried before the parameter child. A request can therefore
fit one route's template yet reach another route, as `/u/m` reaches a declared
`/u/m` rather than `/u/:n`. `Router.ServeDeclaredHandler` states which handler
runs in that general case.

### Where the code and its description differ

The model follows the code in each case.

- **Missing method.** A leaf without a method is meant to be a build-time
  configuration error. `node.go:50-56` binds the handler under whatever method
  string the declaration holds, the empty one included, and so does the model.
  A leaf without a handler is not expressible in the model (see "Left out").
- **Shared parameter node.** Two leaves whose templates differ only in
  parameter names share one node. That node keeps the later template, with no
  conflict detection. When the two leaves use different methods,
  `Serving.ServeSharedNode` proves the consequence: a request for the earlier
  route runs the earlier handler, but carries the later template.
  `Serving.ServeSharedNodeParams` proves that its parameters are then read
  under the later route's names. When the two leaves use the same method, the
  later binding overwrites the earlier one (`node.go:52-54`), and the later
  handler serves both routes (`Serving.ServeSharedNodeSameMethod`).
- **Template and path out of step.** The design takes a matched template
  and its request path to line up segment for segment. The code does not
  ensure this. Matching skips an empty request segment (`node.go:115-116`).
  `parse`, however, reads each value at the template's own byte offset in the
  path (`request.go:61-68`). So a matched request can hand its handler shifted
  or missing values:
  - a doubled slash: `//users/v` reaches `/users/:id`
    (`Serving.ServeLeadingEmpty`), and `id` reads `/v`
    (`Serving.MisalignedParam`);
  - an empty segment in mid-path: `/users//42/blogs` against
    `/users/:id/blogs` binds nothing, because the value at the name's offset is
    empty (`request.go:63`, `Templates.ParseStopsAtEmptyValue`);
  - a group prefix without a slash: a group `/api` with a child `users/:id`
    stores the template `/apiusers/:id` (`node.go:29-30`,
    `Trie.RouteTemplate`), so `/api/users/42` gives `id = "/42"`;
  - a trailing slash: a last parameter takes the whole rest of the path, so
    `/users/42/` against `/users/:id` gives `id = "42/"`
    (`Templates.FinalParamTakesSuffix`).
- **Signatures in this version of the repository.** `router.go` and
  `route.go` do not fit `node.go` and the tests:
  - `router.go:9-10` calls `newNode` and `generateFromRoutes` with arguments
    that the definitions in `node.go` do not take;
  - `route.go` has no `Middleware` field, while `node.go` and the tests use
    one.

  The model follows `node.go` and the tests. New builds under an empty root
  with no prefix and no middleware.

## Model

| member | source | states |
|---|---|---|
| Handlers.Combine | node.go:37-46 | The combined middleware is nil exactly when both the inherited and the declaration's own are nil; its layers are the inherited ones, outermost, followed by the declaration's own. |
| Handlers.BindHandler | node.go:51-55 | The handler bound on a leaf is the declared handler wrapped in the accumulated middleware layers, outermost first; it is the raw handler when there is no middleware. |
| Handlers.WrapAllOnion | node.go:37-55 | Running a wrapped handler runs the layers' code before the handler outermost first, then the handler, then their code after it innermost first (onion order). |
| Handlers.NestedMiddlewareOrder | router_test.go:241-254 | A leaf with its own middleware `b` under a group with middleware `a` runs a-before, b-before, the handler, b-after, a-after. |
| Strings.IndexByteSpec | node.go:62 | `IndexByte` is -1 exactly when the character is absent; otherwise it is the position of the first occurrence. |
| Strings.JoinSplit | node.go:61-67 | Splitting a path at every slash and joining the segments with slashes gives the path back. |
| Strings.SplitJoin | node.go:91-103 | Slash-free segments joined with slashes split back into exactly those segments. |
| Trie.NewNode | node.go:9-15 | A new node has no template, no catch-all flag, no children and no handlers. |
| Trie.KeyOf | node.go:80-84 | A segment starting with `:` is filed under the parameter key `"?"`; any other segment under itself. |
| Trie.FindOrCreateNode | node.go:80-89 | Afterwards the child for the segment exists; an existing child is kept untouched, and a missing one is created empty. |
| Trie.GenerateNode | node.go:69-78 | An empty segment stays at the node; `*` flags the node as a catch-all and stays; any other segment continues in the child for its key, which then exists. The node's handlers, template and existing children are unchanged. |
| Trie.RouteTemplate | node.go:28-35 | The four branches choosing a leaf's template always give the prefix followed by the declared path. |
| Trie.FindPart | node.go:114-124 | An empty request segment stays at the node; an exact literal child wins; otherwise the parameter child; otherwise there is no match. Parent links are preserved. |
| Trie.FindWildcardNode | node.go:126-134 | The answer is None exactly when no node from the root to here is a catch-all; otherwise it is the deepest flagged node at or above here, with no flagged node below it. |
| Trie.FindNode | node.go:91-112 | A found node has handlers or is a catch-all; no node is found only if no node on the starting chain is a catch-all. |
| Matching.FindNodeIsMatch | node.go:91-134 | Go's interleaved recursion equals the reference matcher: walk the split path as far as it leads; answer with the node reached if the whole path was consumed there and it has handlers, else with the nearest catch-all at or above where the walk stopped. |
| Matching.FindNodeOnPath | node.go:91-112 | The matched node lies on the same root-to-leaf line as the starting node, and its chain is a chain of parent links. |
| Matching.WalkResolves | node.go:114-124 | Request segments that lead along key path `ks` (empty segments skipped, a literal key or the parameter key when no literal child exists) walk the whole path to the node at `ks`. |
| Matching.ResolvedPathMatches | node.go:105-111 | A request path whose segments lead to a node with handlers is matched to that node. |
| Matching.ResolvedPathFallsBack | node.go:105-109 | A request path whose segments lead to a node without handlers falls back to the nearest catch-all on the way down to that node. |
| Trie.GenerateFromRoutes | node.go:25-59 | Declares the routes in order; what it builds is specified by Table.GenerateFromRoutesMatchesTable. |
| Trie.GenerateFromPath | node.go:61-67 | Walks a declared path one segment per slash; specified by Table.GenerateFromPathMatchesTable. |
| Trie.Continue | node.go:62-66 | Goes on with the rest of the path after a slash, or declares at the last segment; specified by Table.GenerateFromPathMatchesTable. |
| Trie.Declare | node.go:48-57 | A group declares its children with the joined template and combined middleware; a leaf binds its handler under its method and records the template. Specified by Table.GenerateFromRoutesMatchesTable. |
| Table.SegmentEntriesAt | node.go:61-89 | A declared path without `*` files the declaration's effects under the key path of its non-empty segments. |
| Table.GenerateFromPathMatchesTable | node.go:61-78 | Walking one declared path and declaring there leaves, at every key path, the table's effects for that declaration applied over the previous state. |
| Table.GenerateFromRoutesMatchesTable | node.go:25-59 | Building a declaration list leaves, at every key path, exactly what the flattened declarations give when applied in order: which nodes exist, their handlers by method, their template and their catch-all flag. |
| Requests.RouteOf | request.go:17-19 | The template of the matched node; its value on a served request is stated by Router.ServeDeclaredHandler. |
| Requests.ScanOnce | request.go:60-71 | One pass of parse: no `:`, a panicking slice, a name bound before a slash, or a last name; a binding leaves a strictly shorter template. |
| Requests.ParseDefined | request.go:61-69 | Parse's slices stay in range; proved for every instantiating path by Templates.ParseRoundTrip. |
| Requests.Parse | request.go:60-71 | Parse only adds names to the map it starts from; what it binds is stated by Templates.ParseRoundTrip. |
| Requests.Params | request.go:21-36 | Nil for a template without `:`; the cached map when there is one; otherwise the parsed map, which is then cached in the request. |
| Requests.Param | request.go:38-40 | The value of the name in Params; the empty string when Params is nil or lacks the name; the request is left as Params leaves it. |
| Requests.ParamsCached | request.go:28-35 | Params computes at most once: a second call returns the same map and leaves the request unchanged. |
| Requests.ParamStable | request.go:38-40 | Param reads the same value before and after the parameters are cached. |
| Templates.ParseNoSigil | request.go:60-61 | A template without `:` binds nothing. |
| Templates.ParseParamStep | request.go:62-65 | `:name/` in the template against `value/` in the path binds the name to the value and continues after both slashes; parsing is defined exactly when it is defined on the remainders. |
| Templates.ParseLastParam | request.go:67-69 | A last `:name` with no slash after it takes the whole rest of the path. |
| Templates.FinalParamTakesSuffix | request.go:61-69 | Whatever literal text precedes a final `:name`, the name takes the path from the same offset to its end, slashes included. |
| Templates.ParsePastEnd | request.go:61-68 | A first `:` at an offset past the end of the path leaves parse undefined: Go's `path[i:]` would panic. |
| Templates.ParseStopsAtEmptyValue | request.go:63-66 | A parameter whose value would be empty stops the scan: nothing after it is bound. |
| Templates.ParseShift | request.go:61-65 | Equally long text without `:` before the first parameter does not change what Parse binds, or whether it is defined. |
| Templates.ParseKeysFollowSigils | request.go:60-71 | Every name Parse adds is spelled right after a `:` of the template. |
| Templates.ParseKeysCount | request.go:60-71 | Parse adds at most as many names as the template has `:`. |
| Templates.ParseRoundTrip | request.go:60-71 | For a well-formed template and a path that puts a non-empty, slash-free value in each parameter position, Parse is defined and maps every name to its value; a repeated name keeps the last value. |
| Router.New | router.go:8-12 | Builds the trie from an empty root with no prefix and no middleware; specified by Router.NewMatchesTable. |
| Router.ServeHTTP | router.go:18-35 | Resolves the path with FindNode and dispatches; specified by Router.ServeIsMatch and Router.NotFoundIff. |
| Router.Dispatch | router.go:18-35 | 404 exactly when no node was found; 405 exactly when the node has no handler for the method; otherwise the node's handler for the method is called with a request for that node and path. |
| Router.NewMatchesTable | router.go:8-12 | The tree New builds holds, at every key path, what the declarations say about that path. |
| Router.ServeIsMatch | router.go:18-20 | Serving dispatches on the reference matcher's answer for the split request path. |
| Router.NotFoundIff | router.go:20-25 | 404 exactly when the walk neither ends on a node with handlers having consumed the whole path nor passes a catch-all. |
| Router.LeadsResolves | node.go:114-124 | A resolution judged on the declarations alone (literal key, or the parameter key when no literal of that name is declared) holds in the tree New builds. |
| Router.ServeDeclaredHandler | router.go:18-35 | A request whose path leads to a declared node with a handler for its method calls that handler. The request carries the node's template and the path, with no parameters computed yet. |
| Router.ServeWrongMethod | router.go:27-32 | A request whose path leads to a node with handlers, none for its method, is answered 405. |
| Router.HandlerParamsStable | request.go:21-40 | The request a handler receives gives the same parameters when asked twice, and Param agrees before and after caching. |
| Serving.SigilIffParam | request.go:24 | A rendered template contains `:` exactly when it has a parameter segment. |
| Serving.ServeInstance | request_test.go:10-61 | For any single route whose template has literal and `:name` segments, a request that puts values in the parameter positions runs the route's handler. The handler sees the route's template, and Params maps each name to its value (nil when there is no parameter). |
| Serving.ServeInstanceOtherMethod | router_test.go:216-221 | The same request with any other method is answered 405. |
| Serving.ServeLeadingEmpty | node.go:114-116 | A path with a doubled leading slash still reaches the single route's handler, under its template and with that path, because matching skips the empty segment. |
| Serving.ParseMisaligned | request.go:61-69 | On `//users/v` the template `/users/:id` is parsed without panic and binds `id` to `/v`: the value starts at the template's offset, one byte early. |
| Serving.MisalignedParam | request.go:21-36 | Served end to end, `//users/v` runs the handler of `/users/:id`, and that handler's Params gives `id` the value `/v` rather than `v`. |
| Serving.ServeSharedNode | node.go:48-57 | Two leaves on different methods whose templates differ only in parameter names share a node that keeps the later template. A request for the earlier leaf runs its handler but carries the later leaf's template. |
| Serving.ServeSharedNodeSameMethod | node.go:50-56 | Two such leaves on the same method: the later binding overwrites the earlier, so a request for the earlier leaf runs the later handler under the later template. |
| Serving.SharedInstance | node.go:80-89 | A path for the earlier of two templates filed under the same keys fits the later one as well, unless the later one has a literal `?` where the earlier has a parameter. |
| Serving.ServeSharedNodeParams | request.go:21-36 | For such a request, Params binds the later template's names to the path's values (nil when the later template has no parameter). |

## Left out

- `response.go` (the buffered response writer) is not part of this model. Neither is the request body (`ParseBody`, `MustParseBody`, `Bind`, `MustBind` at `request.go:42-83`); they are I/O wrappers outside the router's logic.
- `example/` and `bench_test.go` are left out: they are usage and benchmarks, not behaviour.
- **HTTP transport.** The request path is the already escaped path string that `router.go:19` reads. Writing the 404 and 405 responses becomes the `Outcome` value. Attaching the template to the request context (`router.go:34`) becomes the `Request` value the handler receives.
- **Nil handlers.** A declared handler is an id, so a leaf without a handler cannot be written. In Go such a leaf binds nil at `node.go:54`, which makes the node count as having handlers, and `router.go:34` then panics calling it.
- **Handler bodies and middleware bodies** are opaque ids. The only thing observed is the order of their before/after code (`Handlers.Trace`).
- **Concurrency.** Concurrent reads of the finished trie are left out; the model's trie is an immutable value.
- **Go's slice panics in `parse`** are not modelled as behaviour. `Parse`, `Params` and `Param` require `ParseDefined` instead. `ParseRoundTrip` and `ServeInstance` prove that it holds for every request that instantiates the template. The router can also hand a handler a request for which it fails, so the model says nothing about `Params` there. A `*` segment takes bytes in the template but consumes no request segment (it only flags the node, `node.go:72-76`). A route declared `/a/*/:x` therefore creates the parameter child under `a`, and `/a/1` reaches that child directly (`node.go:110`, `node.go:119-120`). The first `:` of the template lies beyond the end of that path (`Templates.ParsePastEnd`), so Go's `path[i:]` (`request.go:68`) panics.
- Trie.FindNode: its own contract does not state that the found chain continues the starting chain along parent links. That property is stated and proved separately, in `Matching.FindNodeOnPath`.
- Serving.ServeInstance: states the end-to-end result for a router holding that one route. Routers with several declarations are covered by `Router.ServeDeclaredHandler`, whose precondition `Router.Leads` is stated on the declaration table.
- A declared literal segment `?` is filed under the same child as parameters, as in Go. The model keeps that collision and states nothing special about it.
