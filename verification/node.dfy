/** The segment trie: building it from route declarations and finding the
    node a request path resolves to. A node is an immutable value; Go's
    parent pointer becomes the chain of nodes from the root down to the
    node, so climbing to the parent drops the last element of the chain. */
module Trie {
  import opened Options
  import opened Strings
  import opened Handlers
  import opened Routes

  /** The one child key every `:name` segment collapses onto. */
  const ParamKey: string := "?"

  datatype Node = Node(
    route: string,
    wildcard: bool,
    children: map<string, Node>,
    handlers: map<string, Handler>)

  /** A node with no route, no flag, no children and no handlers. */
  function NewNode(): (n: Node)
    ensures n.children == map[] && n.handlers == map[]
    ensures !n.wildcard && n.route == ""
  {
    Node("", false, map[], map[])
  }

  /** The child key a non-empty declared segment is filed under. */
  function KeyOf(seg: string): (k: string)
    requires seg != ""
    ensures seg[0] == ':' ==> k == ParamKey
    ensures seg[0] != ':' ==> k == seg
  {
    if seg[0] == ':' then ParamKey else seg
  }

  // ---------------------------------------------------------------------
  // Construction
  // ---------------------------------------------------------------------

  /** The child for `seg` exists afterwards; an existing one is kept as it
      is, a missing one is created empty. Returns the updated node; the
      child is at `KeyOf(seg)`. */
  function FindOrCreateNode(n: Node, seg: string): (r: Node)
    requires seg != ""
    ensures KeyOf(seg) in r.children
    ensures KeyOf(seg) in n.children ==> r == n
    ensures KeyOf(seg) !in n.children ==> r == n.(children := n.children[KeyOf(seg) := NewNode()])
  {
    var k := KeyOf(seg);
    if k !in n.children then n.(children := n.children[k := NewNode()]) else n
  }

  /** Where generating a segment leaves the walk: the updated node, and the
      key of the child the walk continues in, or None to stay at the node. */
  datatype Step = Step(node: Node, next: Option<string>)

  /** One declared segment (node.go:69-78): an empty segment stays put, `*`
      flags the current node as a catch-all and stays put, anything else
      moves to the (possibly new) child for the segment. */
  function GenerateNode(n: Node, seg: string): (s: Step)
    ensures seg == "" ==> s == Step(n, None)
    ensures seg == "*" ==> s == Step(n.(wildcard := true), None)
    ensures seg != "" && seg != "*" ==>
              s.next == Some(KeyOf(seg)) && KeyOf(seg) in s.node.children
    ensures s.node.handlers == n.handlers && s.node.route == n.route
    ensures n.children.Keys <= s.node.children.Keys
    ensures forall k | k in n.children :: s.node.children[k] == n.children[k]
  {
    if seg == "" then Step(n, None)
    else if seg == "*" then Step(n.(wildcard := true), None)
    else Step(FindOrCreateNode(n, seg), Some(KeyOf(seg)))
  }

  /** The route template of a declaration under `prefix` (node.go:28-35). */
  function RouteTemplate(prefix: string, path: string): (t: string)
    ensures t == prefix + path
  {
    if prefix != "" && path != "" then prefix + path
    else if prefix != "" then prefix
    else if path != "" then path
    else ""
  }

  /** Declares `routes` in order under `n` (node.go:25-59): each declaration
      walks its path, then either declares its children there, with the
      joined template and combined middleware, or binds its handler. */
  function GenerateFromRoutes(n: Node, routes: seq<Route>, prefix: string, mw: Option<Middleware>): Node
    decreases SizeAll(routes), 2, 0, 0
  {
    if routes == [] then n
    else
      var r := routes[0];
      var n' := GenerateFromPath(n, r.path, r, RouteTemplate(prefix, r.path), Combine(mw, r.middleware));
      GenerateFromRoutes(n', routes[1..], prefix, mw)
  }

  /** Walks `path` from `n`, one segment per slash (node.go:61-67), then
      performs the declaration `r` at the node reached. */
  function GenerateFromPath(n: Node, path: string, r: Route, route: string, m: Option<Middleware>): Node
    decreases Size(r), 1, |path|, 1
  {
    var i := IndexByte(path, '/');
    var seg := if i > -1 then path[..i] else path;
    var s := GenerateNode(n, seg);
    match s.next
    case None => Continue(s.node, path, i, r, route, m)
    case Some(k) =>
      s.node.(children := s.node.children[k := Continue(s.node.children[k], path, i, r, route, m)])
  }

  /** After the segment ending at slash `i` (or the last one, when `i` is -1):
      the rest of the path, or the declaration itself. */
  function Continue(n: Node, path: string, i: int, r: Route, route: string, m: Option<Middleware>): Node
    requires -1 <= i < |path|
    decreases Size(r), 1, |path|, 0
  {
    if i > -1 then GenerateFromPath(n, path[i + 1..], r, route, m)
    else Declare(n, r, route, m)
  }

  /** The declaration at the node its path reached (node.go:48-57): a group
      declares its children there; a leaf binds its handler under its method
      and records the template. */
  function Declare(n: Node, r: Route, route: string, m: Option<Middleware>): Node
    decreases Size(r), 0, 0, 0
  {
    if r.IsGroup() then GenerateFromRoutes(n, r.children, route, m)
    else n.(handlers := n.handlers[r.httpMethod := BindHandler(m, r.handler)], route := route)
  }

  // ---------------------------------------------------------------------
  // Matching
  // ---------------------------------------------------------------------

  function Last(chain: seq<Node>): Node
    requires |chain| > 0
  {
    chain[|chain| - 1]
  }

  /** Every node of the chain is a child of the one before it: the chain
      is a node together with its parent links up to the root. */
  predicate ValidChain(chain: seq<Node>) {
    forall i | 0 < i < |chain| :: chain[i] in chain[i - 1].children.Values
  }

  /** One chain is the other cut short: the nodes lie on one root-to-leaf line. */
  predicate Comparable(a: seq<Node>, b: seq<Node>) {
    (|a| <= |b| && b[..|a|] == a) || (|b| <= |a| && a[..|b|] == b)
  }

  /** One request segment (node.go:114-124): an empty segment stays at the
      node, an exact literal child wins over the parameter child, and with
      neither there is no match. */
  function FindPart(chain: seq<Node>, part: string): (r: Option<seq<Node>>)
    requires |chain| > 0
    ensures part == "" ==> r == Some(chain)
    ensures part != "" && part in Last(chain).children ==>
              r == Some(chain + [Last(chain).children[part]])
    ensures part != "" && part !in Last(chain).children && ParamKey in Last(chain).children ==>
              r == Some(chain + [Last(chain).children[ParamKey]])
    ensures part != "" && part !in Last(chain).children && ParamKey !in Last(chain).children ==>
              r.None?
    ensures ValidChain(chain) && r.Some? ==> ValidChain(r.value)
  {
    var n := Last(chain);
    if part == "" then Some(chain)
    else if part in n.children then Some(chain + [n.children[part]])
    else if ParamKey in n.children then Some(chain + [n.children[ParamKey]])
    else None
  }

  /** The nearest catch-all at or above the chain's last node (node.go:126-134):
      the chain cut after the deepest flagged node, or None when no node of
      the chain is flagged. */
  function FindWildcardNode(chain: seq<Node>): (r: Option<seq<Node>>)
    requires |chain| > 0
    ensures r.None? <==> forall i | 0 <= i < |chain| :: !chain[i].wildcard
    ensures r.Some? ==> 0 < |r.value| <= |chain| && r.value == chain[..|r.value|]
    ensures r.Some? ==> Last(r.value).wildcard
    ensures r.Some? ==> forall j | |r.value| <= j < |chain| :: !chain[j].wildcard
  {
    if Last(chain).wildcard then Some(chain)
    else if |chain| == 1 then None
    else
      var up := FindWildcardNode(chain[..|chain| - 1]);
      assert forall i | 0 <= i < |chain| - 1 :: chain[..|chain| - 1][i] == chain[i];
      up
  }

  /** The node a request path resolves to, as the chain down to it
      (node.go:91-112). The path is consumed one segment per slash; when a
      segment finds no child, or the walk ends at a node without handlers,
      the answer is the nearest catch-all above the point where it stopped. */
  function FindNode(chain: seq<Node>, path: string): (r: Option<seq<Node>>)
    requires |chain| > 0
    ensures r.Some? ==> |r.value| > 0
    ensures r.Some? ==> |Last(r.value).handlers| > 0 || Last(r.value).wildcard
    ensures r.None? ==> forall i | 0 <= i < |chain| :: !chain[i].wildcard
    decreases |path|
  {
    var i := IndexByte(path, '/');
    var found :=
      if i > -1 then
        match FindPart(chain, path[..i])
        case None => None
        case Some(c) => FindNode(c, path[i + 1..])
      else FindPart(chain, path);
    match found
    case None => FindWildcardNode(chain)
    case Some(c) =>
      if |Last(c).handlers| == 0 then FindWildcardNode(c)
      else found
  }

  // ---------------------------------------------------------------------
  // Addressing nodes by key path
  // ---------------------------------------------------------------------

  /** The node reached from `n` by following the child keys `ks`. */
  function Lookup(n: Node, ks: seq<string>): Option<Node>
    decreases |ks|
  {
    if ks == [] then Some(n)
    else if ks[0] in n.children then Lookup(n.children[ks[0]], ks[1..])
    else None
  }

  /** One more key: the child of the node reached, if there is one. */
  lemma {:induction false} LookupSnoc(n: Node, ks: seq<string>, k: string)
    ensures Lookup(n, ks + [k])
         == if Lookup(n, ks).Some? && k in Lookup(n, ks).value.children
            then Some(Lookup(n, ks).value.children[k]) else None
    decreases |ks|
  {
    if ks != [] {
      assert (ks + [k])[0] == ks[0];
      assert (ks + [k])[1..] == ks[1..] + [k];
      if ks[0] in n.children {
        LookupSnoc(n.children[ks[0]], ks[1..], k);
      }
    }
  }
}
