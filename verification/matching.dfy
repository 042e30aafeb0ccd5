/** What matching means, stated without Go's interleaved recursion: split
    the request path into segments, walk down as far as the segments lead,
    and answer with the node reached when the whole path was consumed there
    and it has handlers; otherwise with the nearest catch-all at or above
    the point where the walk stopped. */
module Matching {
  import opened Options
  import opened Strings
  import opened Trie

  /** Where walking `segs` from the chain's last node ends: the chain down
      to the deepest node reached, and whether every segment was consumed. */
  datatype Walked = Walked(chain: seq<Node>, complete: bool)

  function Walk(chain: seq<Node>, segs: seq<string>): (w: Walked)
    requires |chain| > 0
    ensures |chain| <= |w.chain| && w.chain[..|chain|] == chain
    ensures ValidChain(chain) ==> ValidChain(w.chain)
    decreases |segs|
  {
    if segs == [] then Walked(chain, true)
    else match FindPart(chain, segs[0])
      case None => Walked(chain, false)
      case Some(c) =>
        var w := Walk(c, segs[1..]);
        assert w.chain[..|chain|] == w.chain[..|c|][..|chain|];
        w
  }

  /** The reference matcher. */
  function Match(chain: seq<Node>, segs: seq<string>): Option<seq<Node>>
    requires |chain| > 0
  {
    var w := Walk(chain, segs);
    if w.complete && |Last(w.chain).handlers| > 0 then Some(w.chain)
    else FindWildcardNode(w.chain)
  }

  /** A chain whose last node is a catch-all is its own nearest catch-all. */
  lemma FindWildcardNodeAtFlag(chain: seq<Node>)
    requires |chain| > 0 && Last(chain).wildcard
    ensures FindWildcardNode(chain) == Some(chain)
  {
  }

  /** Go's findNode computes the reference matcher on the path's segments. */
  lemma {:induction false} FindNodeIsMatch(chain: seq<Node>, path: string)
    requires |chain| > 0
    ensures FindNode(chain, path) == Match(chain, Split(path))
    decreases |path|
  {
    var i := IndexByte(path, '/');
    var segs := Split(path);
    if i > -1 {
      var seg := path[..i];
      var rest := path[i + 1..];
      assert segs == [seg] + Split(rest);
      assert segs[1..] == Split(rest);
      match FindPart(chain, seg)
      case None =>
        assert Walk(chain, segs) == Walked(chain, false);
      case Some(c) =>
        FindNodeIsMatch(c, rest);
        assert Walk(chain, segs) == Walk(c, Split(rest));
        var w := Walk(c, Split(rest));
        var found := FindNode(c, rest);
        if found.None? {
          assert forall j | 0 <= j < |chain| :: chain[j] == w.chain[j];
        } else if |Last(found.value).handlers| == 0 {
          FindWildcardNodeAtFlag(found.value);
        }
    } else {
      assert segs == [path];
      assert segs[1..] == [];
      match FindPart(chain, path)
      case None =>
        assert Walk(chain, segs) == Walked(chain, false);
      case Some(c) =>
        assert Walk(chain, segs) == Walk(c, []) == Walked(c, true);
    }
  }

  /** The matched node lies on the line through the start: its chain and
      the starting chain are one the other cut short, and parent links stay
      parent links. */
  lemma FindNodeOnPath(chain: seq<Node>, path: string)
    requires |chain| > 0
    ensures FindNode(chain, path).Some? ==> Comparable(chain, FindNode(chain, path).value)
    ensures ValidChain(chain) && FindNode(chain, path).Some? ==> ValidChain(FindNode(chain, path).value)
  {
    FindNodeIsMatch(chain, path);
    var w := Walk(chain, Split(path));
    var r := FindNode(chain, path);
    if r.Some? && r.value != w.chain {
      var c := r.value;
      assert c == w.chain[..|c|];
      if |c| <= |chain| {
        assert chain[..|c|] == w.chain[..|chain|][..|c|];
      } else {
        assert c[..|chain|] == w.chain[..|chain|];
      }
      if ValidChain(chain) {
        assert forall i | 0 <= i < |c| :: c[i] == w.chain[i];
      }
    }
  }

  /** Request segments `segs` lead from `n` along the child keys `ks`:
      empty segments stay put, and every other segment is either the key
      itself or stands in the parameter position without naming a literal
      child of its own. */
  predicate Resolves(n: Node, segs: seq<string>, ks: seq<string>)
    decreases |segs|
  {
    if segs == [] then ks == []
    else if segs[0] == "" then Resolves(n, segs[1..], ks)
    else
      && ks != []
      && ks[0] in n.children
      && (ks[0] == segs[0] || (ks[0] == ParamKey && segs[0] !in n.children))
      && Resolves(n.children[ks[0]], segs[1..], ks[1..])
  }

  /** Segments that resolve along `ks` walk to the node at `ks`, consuming the whole path. */
  lemma {:induction false} WalkResolves(chain: seq<Node>, segs: seq<string>, ks: seq<string>)
    requires |chain| > 0
    requires Resolves(Last(chain), segs, ks)
    ensures Walk(chain, segs).complete
    ensures Lookup(Last(chain), ks) == Some(Last(Walk(chain, segs).chain))
    decreases |segs|
  {
    if segs != [] {
      if segs[0] == "" {
        WalkResolves(chain, segs[1..], ks);
      } else {
        var n := Last(chain);
        var c := chain + [n.children[ks[0]]];
        assert FindPart(chain, segs[0]) == Some(c);
        assert Last(c) == n.children[ks[0]];
        WalkResolves(c, segs[1..], ks[1..]);
      }
    }
  }

  /** A request path whose segments resolve to a node with handlers matches that node. */
  lemma ResolvedPathMatches(chain: seq<Node>, path: string, ks: seq<string>, x: Node)
    requires |chain| > 0
    requires Resolves(Last(chain), Split(path), ks)
    requires Lookup(Last(chain), ks) == Some(x) && |x.handlers| > 0
    ensures FindNode(chain, path).Some? && Last(FindNode(chain, path).value) == x
  {
    FindNodeIsMatch(chain, path);
    WalkResolves(chain, Split(path), ks);
  }

  /** A request path whose segments resolve to a node without handlers
      falls back to the nearest catch-all on the way down to that node. */
  lemma ResolvedPathFallsBack(chain: seq<Node>, path: string, ks: seq<string>, x: Node)
    requires |chain| > 0
    requires Resolves(Last(chain), Split(path), ks)
    requires Lookup(Last(chain), ks) == Some(x) && |x.handlers| == 0
    ensures FindNode(chain, path) == FindWildcardNode(Walk(chain, Split(path)).chain)
  {
    FindNodeIsMatch(chain, path);
    WalkResolves(chain, Split(path), ks);
  }
}
