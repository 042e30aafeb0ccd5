/** The request value a handler receives: the matched node's template, the
    raw request path, and the parameter map computed on first use and then
    kept (request.go). */
module Requests {
  import opened Options
  import opened Strings
  import opened Trie

  type ParamMap = map<string, string>

  /** `params` is Go's `r.params`: None while nil, the map once computed. */
  datatype Request = Request(node: Node, path: string, params: Option<ParamMap>)

  /** A request for a matched node, before any parameter was read. */
  function NewRequest(node: Node, path: string): (r: Request)
    ensures r.params.None?
  {
    Request(node, path, None)
  }

  /** The template of the node the request matched (request.go:17-19). */
  function RouteOf(r: Request): string {
    r.node.route
  }

  /** What one pass of parse (request.go:60-71) finds: no `:` or an empty
      or unterminated value (Done), a `:` beyond the end of the path, where
      Go's slicing panics (Panic), a name ending at a slash with its value
      and the remainders of template and path after the next slashes
      (Bind), or a last name that takes the rest of the path (Final). */
  datatype Scan =
    | Done
    | Panic
    | Bind(name: string, value: string, route: string, path: string)
    | Final(name: string, value: string)

  function ScanOnce(route: string, path: string): (s: Scan)
    ensures s.Bind? ==> |s.route| < |route|
  {
    var i := IndexByte(route, ':');
    if i == -1 then Done
    else if i > |path| then Panic
    else
      var k := IndexByte(route[i + 1..], '/');
      if k > 0 then
        var j1 := k + i + 1;
        var j2 := IndexByte(path[i..], '/');
        if j2 > 0 then Bind(route[i + 1..j1], path[i..i + j2], route[j1 + 1..], path[i + j2 + 1..])
        else Done
      else Final(route[i + 1..], path[i..])
  }

  /** Parse's slicing stays in range: every `:` the scan reaches sits at a
      position the path reaches. Go panics otherwise. */
  predicate ParseDefined(route: string, path: string)
    decreases |route|
  {
    match ScanOnce(route, path)
    case Panic => false
    case Bind(_, _, r, q) => ParseDefined(r, q)
    case _ => true
  }

  /** Re-scans the template against the path (request.go:60-71): the name
      after each `:` runs to the next slash of the template, its value
      starts at the same offset in the path and runs to the path's next
      slash; a last name without a slash after it takes the whole rest of
      the path. The scan stops when a value would be empty or unterminated. */
  function Parse(route: string, path: string, p: ParamMap): (r: ParamMap)
    requires ParseDefined(route, path)
    ensures p.Keys <= r.Keys
    decreases |route|
  {
    match ScanOnce(route, path)
    case Bind(n, v, r, q) => Parse(r, q, p[n := v])
    case Final(n, v) => p[n := v]
    case _ => p
  }

  /** Params (request.go:21-36): nil for a template without `:`; otherwise
      the cached map, computing and caching it on the first call. Returns
      the request as it is afterwards together with the answer. */
  function Params(r: Request): (res: (Request, Option<ParamMap>))
    requires ParseDefined(RouteOf(r), r.path)
    ensures ':' !in RouteOf(r) ==> res == (r, None)
    ensures ':' in RouteOf(r) && r.params.Some? ==> res == (r, r.params)
    ensures ':' in RouteOf(r) && r.params.None? ==>
              var m := Parse(RouteOf(r), r.path, map[]);
              res == (r.(params := Some(m)), Some(m))
  {
    var route := RouteOf(r);
    IndexByteSpec(route, ':');
    if IndexByte(route, ':') == -1 then (r, None)
    else if r.params.Some? then (r, r.params)
    else
      var m := Parse(route, r.path, map[]);
      (r.(params := Some(m)), Some(m))
  }

  /** One parameter (request.go:38-40): its value in Params, and "" when
      Params is nil or lacks the name. */
  function Param(r: Request, key: string): (res: (Request, string))
    requires ParseDefined(RouteOf(r), r.path)
    ensures res.0 == Params(r).0
    ensures var m := Params(r).1;
            res.1 == if m.Some? && key in m.value then m.value[key] else ""
  {
    var (r', m) := Params(r);
    (r', if m.Some? && key in m.value then m.value[key] else "")
  }

  /** Params computes at most once: asking again returns the same answer
      and leaves the request as it was after the first call. */
  lemma ParamsCached(r: Request)
    requires ParseDefined(RouteOf(r), r.path)
    ensures var (r', m) := Params(r);
            && RouteOf(r') == RouteOf(r) && r'.path == r.path
            && Params(r') == (r', m)
  {
  }

  /** Param reads the same value before and after the parameters were cached. */
  lemma ParamStable(r: Request, key: string)
    requires ParseDefined(RouteOf(r), r.path)
    ensures Param(Params(r).0, key).1 == Param(r, key).1
  {
  }
}
