/** The router (router.go): New builds the trie from the declarations,
    ServeHTTP resolves a request to a node and answers 404 when there is
    none, 405 when the node has no handler for the method, and otherwise
    calls the handler with the request carrying the node's template. */
module Router {
  import opened Options
  import opened Strings
  import opened Handlers
  import opened Routes
  import opened Trie
  import opened Table
  import opened Matching
  import opened Requests

  datatype Router = Router(tree: Node)

  /** New (router.go:8-12): the declarations built under an empty root with
      no template prefix and no middleware. */
  function New(routes: seq<Route>): Router {
    Router(GenerateFromRoutes(NewNode(), routes, "", None))
  }

  /** What serving a request does: answer 404, answer 405, or call a
      bound handler with the request. */
  datatype Outcome =
    | NotFound
    | MethodNotAllowed
    | Invoke(handler: Handler, request: Request)

  /** The outcome once the node (as its chain from the root) is known. */
  function Dispatch(found: Option<seq<Node>>, verb: string, path: string): (o: Outcome)
    requires found.Some? ==> |found.value| > 0
    ensures o.NotFound? <==> found.None?
    ensures o.MethodNotAllowed? <==> found.Some? && verb !in Last(found.value).handlers
    ensures o.Invoke? ==>
              && o.handler == Last(found.value).handlers[verb]
              && o.request == NewRequest(Last(found.value), path)
  {
    match found
    case None => NotFound
    case Some(c) =>
      var n := Last(c);
      if verb in n.handlers then Invoke(n.handlers[verb], NewRequest(n, path)) else MethodNotAllowed
  }

  /** ServeHTTP (router.go:18-35) on the escaped request path. */
  function ServeHTTP(router: Router, verb: string, path: string): Outcome {
    Dispatch(FindNode([router.tree], path), verb, path)
  }

  /** The state the declarations give the node at key path `ks`. */
  function Declared(routes: seq<Route>, ks: seq<string>): Option<Info> {
    Overlay(View(NewNode(), ks), Flatten(routes, "", None), ks)
  }

  /** An empty root has one node, itself, with nothing declared. */
  lemma ViewNewNode(ks: seq<string>)
    ensures View(NewNode(), ks) == if ks == [] then Some(EmptyInfo) else None
  {
  }

  /** The tree New builds holds, at every key path, what the declarations say. */
  lemma NewMatchesTable(routes: seq<Route>, ks: seq<string>)
    ensures View(New(routes).tree, ks) == Declared(routes, ks)
  {
    GenerateFromRoutesMatchesTable(NewNode(), routes, "", None, ks);
  }

  /** ServeHTTP dispatches on the reference matcher's answer. */
  lemma ServeIsMatch(router: Router, verb: string, path: string)
    ensures ServeHTTP(router, verb, path) == Dispatch(Match([router.tree], Split(path)), verb, path)
  {
    FindNodeIsMatch([router.tree], path);
  }

  /** 404 exactly when the walk down the path neither ends on a node with
      handlers nor passes a catch-all. */
  lemma NotFoundIff(router: Router, verb: string, path: string)
    ensures var w := Walk([router.tree], Split(path));
            ServeHTTP(router, verb, path).NotFound? <==>
              && !(w.complete && |Last(w.chain).handlers| > 0)
              && forall i | 0 <= i < |w.chain| :: !w.chain[i].wildcard
  {
    ServeIsMatch(router, verb, path);
  }

  /** Request segments `segs` lead from key path `pre` along the keys `ks`,
      judged by the declarations alone: empty segments stay put, and each
      other segment moves to a declared child that is either the segment
      itself or the parameter child when no literal child of that name is
      declared. */
  predicate Leads(routes: seq<Route>, pre: seq<string>, segs: seq<string>, ks: seq<string>)
    decreases |segs|
  {
    if segs == [] then ks == []
    else if segs[0] == "" then Leads(routes, pre, segs[1..], ks)
    else
      && ks != []
      && Declared(routes, pre + [ks[0]]).Some?
      && (ks[0] == segs[0] || (ks[0] == ParamKey && Declared(routes, pre + [segs[0]]).None?))
      && Leads(routes, pre + [ks[0]], segs[1..], ks[1..])
  }

  /** What the declarations say about resolution holds in the tree New builds. */
  lemma {:induction false} LeadsResolves(routes: seq<Route>, pre: seq<string>, segs: seq<string>, ks: seq<string>)
    requires Declared(routes, pre).Some? && Leads(routes, pre, segs, ks)
    ensures Lookup(New(routes).tree, pre).Some?
    ensures Resolves(Lookup(New(routes).tree, pre).value, segs, ks)
    decreases |segs|
  {
    var tree := New(routes).tree;
    NewMatchesTable(routes, pre);
    if segs != [] {
      if segs[0] == "" {
        LeadsResolves(routes, pre, segs[1..], ks);
      } else {
        var k := ks[0];
        NewMatchesTable(routes, pre + [k]);
        LookupSnoc(tree, pre, k);
        if k != segs[0] {
          NewMatchesTable(routes, pre + [segs[0]]);
          LookupSnoc(tree, pre, segs[0]);
        }
        LeadsResolves(routes, pre + [k], segs[1..], ks[1..]);
      }
    }
  }

  /** Overlaying effects on an existing node leaves a node. */
  lemma {:induction false} OverlayKeepsSome(v: Option<Info>, es: seq<Entry>, ks: seq<string>)
    requires v.Some?
    ensures Overlay(v, es, ks).Some?
    decreases |es|
  {
    if es != [] {
      OverlayKeepsSome(ApplyEntry(v, es[0], ks), es[1..], ks);
    }
  }

  /** A request whose path leads to a declared node with a handler for its
      method calls that handler (with the middleware the declarations put
      around it), and the request carries that node's template and the
      path, with no parameters computed yet. */
  lemma ServeDeclaredHandler(routes: seq<Route>, verb: string, path: string, ks: seq<string>)
    requires Leads(routes, [], Split(path), ks)
    requires Declared(routes, ks).Some? && verb in Declared(routes, ks).value.handlers
    ensures var info := Declared(routes, ks).value;
            var o := ServeHTTP(New(routes), verb, path);
            && o.Invoke?
            && o.handler == info.handlers[verb]
            && RouteOf(o.request) == info.route
            && o.request.path == path
            && o.request.params.None?
  {
    var tree := New(routes).tree;
    OverlayKeepsSome(Some(EmptyInfo), Flatten(routes, "", None), []);
    LeadsResolves(routes, [], Split(path), ks);
    NewMatchesTable(routes, ks);
    var x := Lookup(tree, ks).value;
    ResolvedPathMatches([tree], path, ks, x);
  }

  /** A request whose path leads to a declared node with handlers, but
      none for its method, is answered 405. */
  lemma ServeWrongMethod(routes: seq<Route>, verb: string, path: string, ks: seq<string>)
    requires Leads(routes, [], Split(path), ks)
    requires Declared(routes, ks).Some?
    requires |Declared(routes, ks).value.handlers| > 0 && verb !in Declared(routes, ks).value.handlers
    ensures ServeHTTP(New(routes), verb, path) == MethodNotAllowed
  {
    var tree := New(routes).tree;
    OverlayKeepsSome(Some(EmptyInfo), Flatten(routes, "", None), []);
    LeadsResolves(routes, [], Split(path), ks);
    NewMatchesTable(routes, ks);
    var x := Lookup(tree, ks).value;
    ResolvedPathMatches([tree], path, ks, x);
  }

  /** Asking twice for the parameters of the request a handler receives
      gives the same answer, and Param agrees with Params. */
  lemma HandlerParamsStable(routes: seq<Route>, verb: string, path: string, key: string)
    requires ServeHTTP(New(routes), verb, path).Invoke?
    requires ParseDefined(RouteOf(ServeHTTP(New(routes), verb, path).request), path)
    ensures var r := ServeHTTP(New(routes), verb, path).request;
            var (r', m) := Params(r);
            && Params(r') == (r', m)
            && Param(r', key).1 == Param(r, key).1
  {
    var r := ServeHTTP(New(routes), verb, path).request;
    ParamsCached(r);
  }
}
