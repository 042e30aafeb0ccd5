/** What building the trie means, stated without the trie: the route
    declarations flatten into a table of effects, each addressed by the key
    path of the node it lands on, and the node the builder leaves at a key
    path is the table's effects for that path applied in declaration order. */
module Table {
  import opened Options
  import opened Strings
  import opened Handlers
  import opened Routes
  import opened Trie

  /** One effect of a declaration: a handler bound under a method together
      with the template recorded, or a node flagged as a catch-all. */
  datatype Entry =
    | Bound(keys: seq<string>, verb: string, handler: Handler, route: string)
    | Star(keys: seq<string>)

  /** The effect moved below the key path `p`. */
  function Prefixed(p: seq<string>, e: Entry): (e': Entry)
    ensures e'.keys == p + e.keys
  {
    match e
    case Bound(ks, v, h, t) => Bound(p + ks, v, h, t)
    case Star(ks) => Star(p + ks)
  }

  function Under(p: seq<string>, es: seq<Entry>): (es': seq<Entry>)
    ensures |es'| == |es|
  {
    if es == [] then [] else [Prefixed(p, es[0])] + Under(p, es[1..])
  }

  /** The effects of walking the declared segments `segs` and then doing
      `effect` where the walk ends: empty segments add nothing, `*` flags
      the node reached so far, any other segment descends one key. */
  function SegmentEntries(segs: seq<string>, effect: seq<Entry>): (es: seq<Entry>)
    ensures |es| >= |effect|
    decreases |segs|
  {
    if segs == [] then effect
    else if segs[0] == "" then SegmentEntries(segs[1..], effect)
    else if segs[0] == "*" then [Star([])] + SegmentEntries(segs[1..], effect)
    else Under([KeyOf(segs[0])], SegmentEntries(segs[1..], effect))
  }

  /** The key path a declared path leads to when it holds no `*`: empty
      segments are skipped, and each other segment is filed under its key. */
  function KeyPath(segs: seq<string>): (ks: seq<string>)
    ensures |ks| <= |segs|
  {
    if segs == [] then []
    else if segs[0] == "" then KeyPath(segs[1..])
    else [KeyOf(segs[0])] + KeyPath(segs[1..])
  }

  /** The table of a declaration list under a template prefix and an
      inherited middleware, in declaration order. */
  function Flatten(routes: seq<Route>, prefix: string, mw: Option<Middleware>): (es: seq<Entry>)
    ensures |routes| > 0 ==> |es| > 0
    decreases SizeAll(routes), 2
  {
    if routes == [] then []
    else FlattenRoute(routes[0], prefix, mw) + Flatten(routes[1..], prefix, mw)
  }

  function FlattenRoute(r: Route, prefix: string, mw: Option<Middleware>): (es: seq<Entry>)
    ensures |es| > 0
    decreases Size(r), 1
  {
    SegmentEntries(Split(r.path), Effect(r, RouteTemplate(prefix, r.path), Combine(mw, r.middleware)))
  }

  /** What a declaration does where its path ends, relative to that node. */
  function Effect(r: Route, route: string, m: Option<Middleware>): (es: seq<Entry>)
    ensures |es| > 0
    decreases Size(r), 0
  {
    if r.IsGroup() then Flatten(r.children, route, m)
    else [Bound([], r.httpMethod, BindHandler(m, r.handler), route)]
  }

  /** The observable state of one node. */
  datatype Info = Info(handlers: map<string, Handler>, route: string, wildcard: bool)

  const EmptyInfo := Info(map[], "", false)

  function InfoOf(n: Node): Info {
    Info(n.handlers, n.route, n.wildcard)
  }

  /** The state of the node at key path `ks` below `n`, or None when there is no such node. */
  function View(n: Node, ks: seq<string>): Option<Info> {
    match Lookup(n, ks)
    case None => None
    case Some(x) => Some(InfoOf(x))
  }

  predicate IsPrefix(p: seq<string>, s: seq<string>) {
    |p| <= |s| && s[..|p|] == p
  }

  /** One effect as seen from key path `ks`: an effect at or below `ks`
      makes the node exist, and one exactly at `ks` changes it. */
  function ApplyEntry(v: Option<Info>, e: Entry, ks: seq<string>): Option<Info> {
    if !IsPrefix(ks, e.keys) then v
    else
      var b := v.GetOr(EmptyInfo);
      if e.keys != ks then Some(b)
      else match e
        case Bound(_, verb, h, t) => Some(b.(handlers := b.handlers[verb := h], route := t))
        case Star(_) => Some(b.(wildcard := true))
  }

  /** The effects `es`, in order, as seen from key path `ks`, starting from `v`. */
  function Overlay(v: Option<Info>, es: seq<Entry>, ks: seq<string>): Option<Info>
    decreases |es|
  {
    if es == [] then v else Overlay(ApplyEntry(v, es[0], ks), es[1..], ks)
  }

  // ---------------------------------------------------------------------
  // Algebra of overlays
  // ---------------------------------------------------------------------

  lemma {:induction false} OverlayAppend(v: Option<Info>, a: seq<Entry>, b: seq<Entry>, ks: seq<string>)
    ensures Overlay(v, a + b, ks) == Overlay(Overlay(v, a, ks), b, ks)
    decreases |a|
  {
    if a == [] {
      assert a + b == b;
    } else {
      assert (a + b)[0] == a[0];
      assert (a + b)[1..] == a[1..] + b;
      OverlayAppend(ApplyEntry(v, a[0], ks), a[1..], b, ks);
    }
  }

  /** Effects filed under key `k` look, from below `k`, like the effects themselves. */
  lemma {:induction false} OverlayUnder(v: Option<Info>, k: string, es: seq<Entry>, ks: seq<string>)
    ensures Overlay(v, Under([k], es), [k] + ks) == Overlay(v, es, ks)
    decreases |es|
  {
    if es != [] {
      var e := es[0];
      var e' := Prefixed([k], e);
      assert e'.keys == [k] + e.keys;
      assert IsPrefix([k] + ks, e'.keys) <==> IsPrefix(ks, e.keys) by {
        if |ks| <= |e.keys| {
          assert e'.keys[..|[k] + ks|] == [k] + e.keys[..|ks|];
          if [k] + e.keys[..|ks|] == [k] + ks {
            assert e.keys[..|ks|] == ([k] + e.keys[..|ks|])[1..] == ([k] + ks)[1..] == ks;
          }
        }
      }
      assert e'.keys == [k] + ks <==> e.keys == ks by {
        if e'.keys == [k] + ks {
          assert e.keys == e'.keys[1..] == ks;
        }
      }
      assert ApplyEntry(v, e', [k] + ks) == ApplyEntry(v, e, ks);
      OverlayUnder(ApplyEntry(v, e, ks), k, es[1..], ks);
    }
  }

  /** Effects filed under key `k` do not touch a key path that leaves by another key. */
  lemma {:induction false} OverlayUnderOther(v: Option<Info>, k: string, es: seq<Entry>, ks: seq<string>)
    requires ks != [] && ks[0] != k
    ensures Overlay(v, Under([k], es), ks) == v
    decreases |es|
  {
    if es != [] {
      var e' := Prefixed([k], es[0]);
      assert !IsPrefix(ks, e'.keys);
      OverlayUnderOther(v, k, es[1..], ks);
    }
  }

  /** Effects filed under key `k` leave an existing node at the root as it is. */
  lemma {:induction false} OverlayUnderRoot(x: Info, k: string, es: seq<Entry>)
    ensures Overlay(Some(x), Under([k], es), []) == Some(x)
    decreases |es|
  {
    if es != [] {
      var e' := Prefixed([k], es[0]);
      assert e'.keys != [];
      assert ApplyEntry(Some(x), e', []) == Some(x);
      OverlayUnderRoot(x, k, es[1..]);
    }
  }

  lemma {:induction false} UnderNil(es: seq<Entry>)
    ensures Under([], es) == es
    decreases |es|
  {
    if es != [] {
      UnderNil(es[1..]);
      assert Prefixed([], es[0]) == es[0] by {
        assert [] + es[0].keys == es[0].keys;
      }
    }
  }

  lemma {:induction false} UnderUnder(p: seq<string>, q: seq<string>, es: seq<Entry>)
    ensures Under(p, Under(q, es)) == Under(p + q, es)
    decreases |es|
  {
    if es != [] {
      UnderUnder(p, q, es[1..]);
      assert p + (q + es[0].keys) == (p + q) + es[0].keys;
    }
  }

  /** A declared path without `*` files the declaration's effects under
      the key path of its segments. */
  lemma {:induction false} SegmentEntriesAt(segs: seq<string>, effect: seq<Entry>)
    requires forall i | 0 <= i < |segs| :: segs[i] != "*"
    ensures SegmentEntries(segs, effect) == Under(KeyPath(segs), effect)
    decreases |segs|
  {
    if segs == [] {
      UnderNil(effect);
    } else {
      SegmentEntriesAt(segs[1..], effect);
      if segs[0] != "" {
        UnderUnder([KeyOf(segs[0])], KeyPath(segs[1..]), effect);
      }
    }
  }

  /** At the root, some effect always applies, so a missing node and an empty one end alike. */
  lemma OverlayFromNone(es: seq<Entry>)
    requires |es| > 0
    ensures Overlay(None, es, []) == Overlay(Some(EmptyInfo), es, [])
  {
    assert ApplyEntry(None, es[0], []) == ApplyEntry(Some(EmptyInfo), es[0], []);
  }

  /** Segment entries of a split path, one segment at a time: `seg` is the
      first segment and `rest` the entries of the segments after it. */
  lemma SegmentEntriesOfPath(path: string, effect: seq<Entry>, i: int, seg: string, rest: seq<Entry>)
    requires i == IndexByte(path, '/')
    requires seg == if i > -1 then path[..i] else path
    requires rest == if i > -1 then SegmentEntries(Split(path[i + 1..]), effect) else effect
    ensures seg == "" ==> SegmentEntries(Split(path), effect) == rest
    ensures seg == "*" ==> SegmentEntries(Split(path), effect) == [Star([])] + rest
    ensures seg != "" && seg != "*" ==> SegmentEntries(Split(path), effect) == Under([KeyOf(seg)], rest)
  {
    var segs := Split(path);
    assert segs[0] == seg;
    if i > -1 {
      assert segs[1..] == Split(path[i + 1..]);
    } else {
      assert segs[1..] == [];
    }
  }

  // ---------------------------------------------------------------------
  // The builder realises the table
  // ---------------------------------------------------------------------

  /** Building `routes` under `n` leaves at every key path exactly the state
      the flattened declarations give when applied over the state already there:
      which nodes exist, their handlers by method, their template and their
      catch-all flag. */
  lemma {:induction false} GenerateFromRoutesMatchesTable(
    n: Node, routes: seq<Route>, prefix: string, mw: Option<Middleware>, ks: seq<string>)
    ensures View(GenerateFromRoutes(n, routes, prefix, mw), ks)
         == Overlay(View(n, ks), Flatten(routes, prefix, mw), ks)
    decreases SizeAll(routes), 2, 0, 0
  {
    if routes != [] {
      var r := routes[0];
      var route := RouteTemplate(prefix, r.path);
      var m := Combine(mw, r.middleware);
      var n' := GenerateFromPath(n, r.path, r, route, m);
      GenerateFromPathMatchesTable(n, r.path, r, route, m, ks);
      GenerateFromRoutesMatchesTable(n', routes[1..], prefix, mw, ks);
      OverlayAppend(View(n, ks), FlattenRoute(r, prefix, mw), Flatten(routes[1..], prefix, mw), ks);
    }
  }

  lemma {:induction false} GenerateFromPathMatchesTable(
    n: Node, path: string, r: Route, route: string, m: Option<Middleware>, ks: seq<string>)
    ensures View(GenerateFromPath(n, path, r, route, m), ks)
         == Overlay(View(n, ks), SegmentEntries(Split(path), Effect(r, route, m)), ks)
    decreases Size(r), 1, |path|, 1
  {
    var i := IndexByte(path, '/');
    var seg := if i > -1 then path[..i] else path;
    var eff := Effect(r, route, m);
    var rest := if i > -1 then SegmentEntries(Split(path[i + 1..]), eff) else eff;
    SegmentEntriesOfPath(path, eff, i, seg, rest);
    if seg == "" {
      StepStay(n, path, r, route, m);
      ContinueMatchesTable(n, path, i, r, route, m, ks);
    } else if seg == "*" {
      StepStar(n, path, r, route, m);
      ContinueMatchesTable(n.(wildcard := true), path, i, r, route, m, ks);
      StarView(n, rest, ks);
    } else {
      var k := KeyOf(seg);
      var n1 := FindOrCreateNode(n, seg);
      var c := Continue(n1.children[k], path, i, r, route, m);
      if ks != [] && ks[0] == k {
        ContinueMatchesTable(n1.children[k], path, i, r, route, m, ks[1..]);
      }
      DescendView(n, seg, c, rest, ks);
      StepDescend(n, path, r, route, m);
      assert GenerateFromPath(n, path, r, route, m) == n1.(children := n1.children[k := c]);
      assert SegmentEntries(Split(path), eff) == Under([k], rest);
    }
  }

  /** GenerateFromPath unfolded for an empty first segment. */
  lemma StepStay(n: Node, path: string, r: Route, route: string, m: Option<Middleware>)
    ensures
      var i := IndexByte(path, '/');
      var seg := if i > -1 then path[..i] else path;
      seg == "" ==> GenerateFromPath(n, path, r, route, m) == Continue(n, path, i, r, route, m)
  {
  }

  /** GenerateFromPath unfolded for a first segment `*`. */
  lemma StepStar(n: Node, path: string, r: Route, route: string, m: Option<Middleware>)
    ensures
      var i := IndexByte(path, '/');
      var seg := if i > -1 then path[..i] else path;
      seg == "*" ==>
        GenerateFromPath(n, path, r, route, m) == Continue(n.(wildcard := true), path, i, r, route, m)
  {
  }

  /** GenerateFromPath unfolded for a first segment naming a child. */
  lemma StepDescend(n: Node, path: string, r: Route, route: string, m: Option<Middleware>)
    ensures
      var i := IndexByte(path, '/');
      var seg := if i > -1 then path[..i] else path;
      seg != "" && seg != "*" ==>
        var k := KeyOf(seg);
        var n1 := FindOrCreateNode(n, seg);
        GenerateFromPath(n, path, r, route, m)
          == n1.(children := n1.children[k := Continue(n1.children[k], path, i, r, route, m)])
  {
  }

  /** Flagging the node reached is the table's `Star` effect at that node. */
  lemma StarView(n: Node, rest: seq<Entry>, ks: seq<string>)
    ensures Overlay(View(n.(wildcard := true), ks), rest, ks)
         == Overlay(View(n, ks), [Star([])] + rest, ks)
  {
    assert Overlay(View(n, ks), [Star([])] + rest, ks)
        == Overlay(ApplyEntry(View(n, ks), Star([]), ks), rest, ks);
    if ks == [] {
      assert View(n.(wildcard := true), ks) == ApplyEntry(View(n, ks), Star([]), ks);
    } else {
      assert !IsPrefix(ks, []);
      assert View(n.(wildcard := true), ks) == View(n, ks);
    }
  }

  /** Replacing the child at `k` by a node that realises `rest` over the
      old child realises `rest` filed under `k`. */
  lemma ChildView(n: Node, k: string, c: Node, rest: seq<Entry>, ks: seq<string>)
    requires k in n.children
    requires ks != [] && ks[0] == k ==>
               View(c, ks[1..]) == Overlay(View(n.children[k], ks[1..]), rest, ks[1..])
    ensures View(n.(children := n.children[k := c]), ks) == Overlay(View(n, ks), Under([k], rest), ks)
  {
    var result := n.(children := n.children[k := c]);
    if ks == [] {
      OverlayUnderRoot(InfoOf(n), k, rest);
    } else if ks[0] != k {
      assert View(result, ks) == View(n, ks);
      OverlayUnderOther(View(n, ks), k, rest, ks);
    } else {
      var ks' := ks[1..];
      assert ks == [k] + ks';
      assert View(result, ks) == View(c, ks');
      assert View(n, ks) == View(n.children[k], ks');
      OverlayUnder(View(n, ks), k, rest, ks');
    }
  }

  /** Descending into the child for `seg`, created if missing, and
      realising `rest` there realises `rest` filed under the child's key. */
  lemma DescendView(n: Node, seg: string, c: Node, rest: seq<Entry>, ks: seq<string>)
    requires seg != "" && |rest| > 0
    requires ks != [] && ks[0] == KeyOf(seg) ==>
               View(c, ks[1..])
                 == Overlay(View(FindOrCreateNode(n, seg).children[KeyOf(seg)], ks[1..]), rest, ks[1..])
    ensures
      var n1 := FindOrCreateNode(n, seg);
      View(n1.(children := n1.children[KeyOf(seg) := c]), ks)
        == Overlay(View(n, ks), Under([KeyOf(seg)], rest), ks)
  {
    ChildView(FindOrCreateNode(n, seg), KeyOf(seg), c, rest, ks);
    CreateView(n, seg, rest, ks);
  }

  /** Creating the empty child a walk descends into is invisible once
      something is declared below it. */
  lemma CreateView(n: Node, seg: string, rest: seq<Entry>, ks: seq<string>)
    requires seg != "" && |rest| > 0
    ensures Overlay(View(FindOrCreateNode(n, seg), ks), Under([KeyOf(seg)], rest), ks)
         == Overlay(View(n, ks), Under([KeyOf(seg)], rest), ks)
  {
    var k := KeyOf(seg);
    var n1 := FindOrCreateNode(n, seg);
    if k !in n.children && ks != [] && ks[0] == k {
      var ks' := ks[1..];
      assert ks == [k] + ks';
      OverlayUnder(View(n1, ks), k, rest, ks');
      OverlayUnder(View(n, ks), k, rest, ks');
      if ks' == [] {
        assert Lookup(n1, ks) == Lookup(n1.children[k], ks') == Some(NewNode());
        assert View(n1, ks) == Some(EmptyInfo);
        assert View(n, ks) == None;
        OverlayFromNone(rest);
      } else {
        assert View(n1, ks) == View(NewNode(), ks') == None;
      }
    } else if ks != [] {
      assert View(n1, ks) == View(n, ks);
    }
  }

  lemma {:induction false} ContinueMatchesTable(
    n: Node, path: string, i: int, r: Route, route: string, m: Option<Middleware>, ks: seq<string>)
    requires -1 <= i < |path|
    ensures View(Continue(n, path, i, r, route, m), ks)
         == Overlay(View(n, ks),
                    if i > -1 then SegmentEntries(Split(path[i + 1..]), Effect(r, route, m))
                    else Effect(r, route, m),
                    ks)
    decreases Size(r), 1, |path|, 0
  {
    if i > -1 {
      GenerateFromPathMatchesTable(n, path[i + 1..], r, route, m, ks);
    } else {
      DeclareMatchesTable(n, r, route, m, ks);
    }
  }

  lemma {:induction false} DeclareMatchesTable(
    n: Node, r: Route, route: string, m: Option<Middleware>, ks: seq<string>)
    ensures View(Declare(n, r, route, m), ks) == Overlay(View(n, ks), Effect(r, route, m), ks)
    decreases Size(r), 0, 0, 0
  {
    if r.IsGroup() {
      GenerateFromRoutesMatchesTable(n, r.children, route, m, ks);
    } else {
      var e := Bound([], r.httpMethod, BindHandler(m, r.handler), route);
      assert Effect(r, route, m) == [e];
      if ks != [] {
        assert !IsPrefix(ks, []);
      }
    }
  }
}
