/** End to end for one declared route: a request whose path puts values
    in the parameter positions of the route's template reaches the route's
    handler, and the handler reads those values back by name; the same
    path with another method is answered 405. */
module Serving {
  import opened Options
  import opened Strings
  import opened Handlers
  import opened Routes
  import opened Trie
  import opened Table
  import opened Requests
  import opened Templates
  import opened Router

  /** Literals that file under a child key of their own: not empty (an
      empty segment is skipped) and not `*` (which flags a catch-all). */
  predicate Filed(ts: seq<Segment>) {
    forall i | 0 <= i < |ts| :: ts[i].Lit? ==> ts[i].text != "" && ts[i].text != "*"
  }

  /** A template a route can be declared with. */
  predicate Declarable(ts: seq<Segment>) {
    && |ts| >= 1
    && (forall i | 0 <= i < |ts| :: WellFormed(ts[i]))
    && Filed(ts)
  }

  /** The child key a template segment files under. */
  function KeyOfSegment(s: Segment): string {
    match s
    case Lit(t) => t
    case Param(_) => ParamKey
  }

  /** The single route of the examples: `verb` on template `ts`, no middleware. */
  function Single(ts: seq<Segment>, verb: string, h: nat): seq<Route>
    requires |ts| >= 1
  {
    [Route(Render(ts), verb, h, None, [])]
  }

  // ---------------------------------------------------------------------
  // The template as the builder sees it
  // ---------------------------------------------------------------------

  /** Each segment of a template files under its own key. */
  lemma {:induction false} KeyPathTexts(ts: seq<Segment>)
    requires (forall i | 0 <= i < |ts| :: WellFormed(ts[i])) && Filed(ts)
    ensures |KeyPath(Texts(ts))| == |ts|
    ensures forall i | 0 <= i < |ts| :: KeyPath(Texts(ts))[i] == KeyOfSegment(ts[i])
    decreases |ts|
  {
    if ts != [] {
      var t := Texts(ts);
      var rest := ts[1..];
      assert t == [Text(ts[0])] + Texts(rest);
      assert t[1..] == Texts(rest);
      forall i | 0 <= i < |rest|
        ensures WellFormed(rest[i]) && (rest[i].Lit? ==> rest[i].text != "" && rest[i].text != "*")
      {
        assert rest[i] == ts[i + 1];
      }
      KeyPathTexts(rest);
      assert t[0] != "";
      var k0 := KeyOf(t[0]);
      assert k0 == KeyOfSegment(ts[0]) by {
        if ts[0].Lit? {
          assert t[0][0] in ts[0].text;
        }
      }
      var kp := KeyPath(t);
      assert kp == [k0] + KeyPath(Texts(rest));
      forall i | 0 <= i < |ts|
        ensures kp[i] == KeyOfSegment(ts[i])
      {
        if i > 0 {
          assert kp[i] == KeyPath(Texts(rest))[i - 1];
          assert rest[i - 1] == ts[i];
        }
      }
    }
  }

  /** The declared template splits into an empty segment and the segments' texts. */
  lemma SplitRender(ts: seq<Segment>)
    requires Declarable(ts)
    ensures Split(Render(ts)) == [""] + Texts(ts)
  {
    var t := Texts(ts);
    JoinCons("", t);
    assert "" + "/" + Join(t) == Render(ts);
    forall i | 0 <= i < |t|
      ensures '/' !in t[i]
    {
      assert WellFormed(ts[i]);
    }
    SplitJoin([""] + t);
  }

  /** A request path of one leading slash and the segments splits back into them. */
  lemma SplitInstance(ts: seq<Segment>, segs: seq<string>)
    requires Declarable(ts) && Instance(ts, segs)
    ensures Split("/" + Join(segs)) == [""] + segs
  {
    JoinCons("", segs);
    assert "" + "/" + Join(segs) == "/" + Join(segs);
    forall i | 0 <= i < |segs|
      ensures '/' !in segs[i]
    {
      assert WellFormed(ts[i]);
    }
    SplitJoin([""] + segs);
  }

  /** The single route's table: one handler bound at the template's key path. */
  lemma FlattenSingle(ts: seq<Segment>, verb: string, h: nat)
    requires Declarable(ts)
    ensures Flatten(Single(ts, verb, h), "", None)
         == [Bound(KeyPath(Texts(ts)), verb, Raw(h), Render(ts))]
  {
    var r := Single(ts, verb, h)[0];
    var t := Texts(ts);
    var segs := [""] + t;
    SplitRender(ts);
    forall i | 0 <= i < |segs|
      ensures segs[i] != "*"
    {
      if i > 0 && ts[i - 1].Param? {
        assert segs[i] == ":" + ts[i - 1].name;
        assert segs[i][0] == ':';
      }
    }
    var e := [Bound([], r.httpMethod, Raw(r.handler), r.path)];
    assert BindHandler(None, h) == Raw(h);
    assert Effect(r, RouteTemplate("", r.path), Combine(None, r.middleware)) == e;
    SegmentEntriesAt(segs, e);
    var ks := KeyPath(segs);
    assert segs[1..] == t;
    assert ks == KeyPath(t);
    assert ks + [] == ks;
    assert Under(ks, e) == [Prefixed(ks, e[0])] + Under(ks, []);
    assert Flatten(Single(ts, verb, h), "", None) == FlattenRoute(r, "", None) + Flatten([], "", None);
  }

  /** With a single bound entry, a node exists exactly along its key path,
      and the node at the end holds the handler and the template. */
  lemma {:induction false} DeclaredSingle(routes: seq<Route>, ks: seq<string>, verb: string, hd: Handler, t: string, q: seq<string>)
    requires Flatten(routes, "", None) == [Bound(ks, verb, hd, t)]
    ensures Declared(routes, q).Some? <==> IsPrefix(q, ks)
    ensures q == ks ==> Declared(routes, q) == Some(Info(map[verb := hd], t, false))
  {
    var es := Flatten(routes, "", None);
    ViewNewNode(q);
    assert es[1..] == [];
    assert Declared(routes, q) == Overlay(ApplyEntry(View(NewNode(), q), es[0], q), [], q);
    if q == ks {
      assert IsPrefix(q, ks);
    }
  }

  // ---------------------------------------------------------------------
  // Resolution and dispatch
  // ---------------------------------------------------------------------

  /** The remaining request segments lead from the `j`-th key onwards. */
  lemma {:induction false} LeadsFrom(routes: seq<Route>, ts: seq<Segment>, segs: seq<string>, ks: seq<string>, j: nat)
    requires forall q :: Declared(routes, q).Some? <==> IsPrefix(q, ks)
    requires Filed(ts) && Instance(ts, segs)
    requires |ks| == |ts| && forall i | 0 <= i < |ts| :: ks[i] == KeyOfSegment(ts[i])
    requires j <= |ts|
    ensures Leads(routes, ks[..j], segs[j..], ks[j..])
    decreases |ts| - j
  {
    if j < |ts| {
      var pre := ks[..j];
      var s := segs[j..];
      var k := ks[j..];
      assert s[0] == segs[j] && s[1..] == segs[j + 1..];
      assert k[0] == ks[j] && k[1..] == ks[j + 1..];
      assert pre + [ks[j]] == ks[..j + 1];
      assert segs[j] != "";
      assert IsPrefix(ks[..j + 1], ks);
      if ts[j].Param? && segs[j] != ParamKey {
        assert (pre + [segs[j]])[j] != ks[j];
        assert !IsPrefix(pre + [segs[j]], ks);
      }
      LeadsFrom(routes, ts, segs, ks, j + 1);
    }
  }

  /** Requests instantiating the single route's template lead to its node. */
  lemma LeadsSingle(ts: seq<Segment>, segs: seq<string>, verb: string, h: nat)
    requires Declarable(ts) && Instance(ts, segs)
    ensures Leads(Single(ts, verb, h), [], Split("/" + Join(segs)), KeyPath(Texts(ts)))
    ensures Declared(Single(ts, verb, h), KeyPath(Texts(ts))) == Some(Info(map[verb := Raw(h)], Render(ts), false))
  {
    var routes := Single(ts, verb, h);
    var ks := KeyPath(Texts(ts));
    FlattenSingle(ts, verb, h);
    KeyPathTexts(ts);
    SplitInstance(ts, segs);
    forall q
      ensures Declared(routes, q).Some? <==> IsPrefix(q, ks)
    {
      DeclaredSingle(routes, ks, verb, Raw(h), Render(ts), q);
    }
    LeadsFrom(routes, ts, segs, ks, 0);
    assert ks[..0] == [] && segs[0..] == segs && ks[0..] == ks;
    assert ([""] + segs)[1..] == segs;
    DeclaredSingle(routes, ks, verb, Raw(h), Render(ts), ks);
  }

  /** A template has a `:` exactly when it has a parameter segment. */
  lemma {:induction false} SigilIffParam(ts: seq<Segment>)
    requires Declarable(ts)
    ensures ':' in Render(ts) <==> exists i | 0 <= i < |ts| :: ts[i].Param?
  {
    var t := Texts(ts);
    JoinHas(t, ':');
    assert Render(ts) == "/" + Join(t);
    if exists i | 0 <= i < |ts| :: ts[i].Param? {
      var i :| 0 <= i < |ts| && ts[i].Param?;
      assert t[i][0] == ':';
    }
  }

  /** The route's handler runs for a request that instantiates its template,
      under the route's template and on the request path; reading the
      parameters gives every name its value from the path (the last one
      when a name repeats), and nothing when the template has no parameter. */
  lemma ServeInstance(ts: seq<Segment>, segs: seq<string>, verb: string, h: nat)
    requires Declarable(ts) && Instance(ts, segs)
    ensures var o := ServeHTTP(New(Single(ts, verb, h)), verb, "/" + Join(segs));
            && o.Invoke?
            && o.handler == Raw(h)
            && RouteOf(o.request) == Render(ts)
            && o.request.path == "/" + Join(segs)
            && ParseDefined(RouteOf(o.request), o.request.path)
            && Params(o.request).1
                 == if exists i | 0 <= i < |ts| :: ts[i].Param? then Some(Bindings(ts, segs, map[])) else None
  {
    var routes := Single(ts, verb, h);
    var path := "/" + Join(segs);
    LeadsSingle(ts, segs, verb, h);
    ServeDeclaredHandler(routes, verb, path, KeyPath(Texts(ts)));
    ParseRoundTrip(ts, segs, map[]);
    SigilIffParam(ts);
  }

  /** The same request with any other method is answered 405. */
  lemma ServeInstanceOtherMethod(ts: seq<Segment>, segs: seq<string>, verb: string, other: string, h: nat)
    requires Declarable(ts) && Instance(ts, segs) && other != verb
    ensures ServeHTTP(New(Single(ts, verb, h)), other, "/" + Join(segs)) == MethodNotAllowed
  {
    var routes := Single(ts, verb, h);
    LeadsSingle(ts, segs, verb, h);
    ServeWrongMethod(routes, other, "/" + Join(segs), KeyPath(Texts(ts)));
  }

  // ---------------------------------------------------------------------
  // Paths that do not line up with the template
  // ---------------------------------------------------------------------

  /** Matching skips an empty request segment, so a path with a doubled
      leading slash still reaches the route's handler and template. */
  lemma ServeLeadingEmpty(ts: seq<Segment>, segs: seq<string>, verb: string, h: nat)
    requires Declarable(ts) && Instance(ts, segs)
    ensures var o := ServeHTTP(New(Single(ts, verb, h)), verb, "/" + "/" + Join(segs));
            && o.Invoke?
            && o.handler == Raw(h)
            && RouteOf(o.request) == Render(ts)
            && o.request.path == "/" + "/" + Join(segs)
  {
    var routes := Single(ts, verb, h);
    var ks := KeyPath(Texts(ts));
    var path := "/" + "/" + Join(segs);
    LeadsSingle(ts, segs, verb, h);
    assert path == "" + "/" + ("/" + Join(segs));
    SplitCons("", "/" + Join(segs));
    assert Split(path)[1..] == Split("/" + Join(segs));
    ServeDeclaredHandler(routes, verb, path, ks);
  }

  /** The template `/users/:id`, and `users/v` as a path for it. */
  lemma UsersId(v: string)
    requires v != "" && '/' !in v
    ensures Declarable([Lit("users"), Param("id")]) && Instance([Lit("users"), Param("id")], ["users", v])
    ensures Render([Lit("users"), Param("id")]) == "/users/:id"
    ensures "/" + "/" + Join(["users", v]) == "//users/" + v
  {
    var ts := [Lit("users"), Param("id")];
    assert WellFormed(ts[0]) && WellFormed(ts[1]);
    UsersIdText();
    JoinCons("users", [v]);
  }

  /** The template `/users/:id` as text. */
  lemma UsersIdText()
    ensures Join(Texts([Lit("users"), Param("id")])) == "users/:id"
  {
    var ts := [Lit("users"), Param("id")];
    assert Text(ts[1]) == ":" + "id" == ":id";
    assert Texts(ts) == ["users", ":id"];
    JoinCons("users", [":id"]);
    assert "users" + "/" + ":id" == "users/:id";
  }

  /** parse reads values at the template's own offsets, so on a path with a
      doubled leading slash the value of `/users/:id` starts one byte early. */
  lemma ParseMisaligned(v: string)
    requires '/' !in v
    ensures ':' in "/users/:id"
    ensures ParseDefined("/users/:id", "//users/" + v)
    ensures Parse("/users/:id", "//users/" + v, map[]) == map["id" := "/" + v]
  {
    var path := "//users/" + v;
    assert "/users/:id" == "/users/" + ":" + "id";
    assert path[|"/users/"|..] == "/" + v;
    FinalParamTakesSuffix("/users/", "id", path, map[]);
    assert "/users/:id"[7] == ':';
  }

  /** So the handler of `/users/:id` runs for `//users/v` and reads `/v`,
      not `v`, for `id`. */
  lemma MisalignedParam(v: string, verb: string, h: nat)
    requires v != "" && '/' !in v
    ensures var o := ServeHTTP(New(Single([Lit("users"), Param("id")], verb, h)), verb, "//users/" + v);
            && o.Invoke?
            && o.handler == Raw(h)
            && RouteOf(o.request) == "/users/:id"
            && ParseDefined(RouteOf(o.request), o.request.path)
            && Params(o.request).1 == Some(map["id" := "/" + v])
  {
    UsersId(v);
    ServeLeadingEmpty([Lit("users"), Param("id")], ["users", v], verb, h);
    ParseMisaligned(v);
  }

  // ---------------------------------------------------------------------
  // Two templates on one node
  // ---------------------------------------------------------------------

  /** Two routes whose templates file under the same key path (they differ
      only in parameter names) put two bindings at that path. */
  lemma FlattenShared(ts1: seq<Segment>, ts2: seq<Segment>, v1: string, v2: string, h1: nat, h2: nat)
    requires Declarable(ts1) && Declarable(ts2)
    requires KeyPath(Texts(ts1)) == KeyPath(Texts(ts2))
    ensures Flatten(Single(ts1, v1, h1) + Single(ts2, v2, h2), "", None)
         == [Bound(KeyPath(Texts(ts1)), v1, Raw(h1), Render(ts1)), Bound(KeyPath(Texts(ts1)), v2, Raw(h2), Render(ts2))]
  {
    var r1 := Single(ts1, v1, h1);
    var r2 := Single(ts2, v2, h2);
    FlattenSingle(ts1, v1, h1);
    FlattenSingle(ts2, v2, h2);
    assert (r1 + r2)[1..] == r2;
    assert Flatten(r1, "", None) == FlattenRoute(r1[0], "", None) + Flatten([], "", None);
  }

  /** With two bindings at one key path, a node exists exactly along it,
      and the node at the end holds both handlers, the later one winning
      for a repeated method, and only the later template. */
  lemma {:induction false} DeclaredPair(routes: seq<Route>, ks: seq<string>, v1: string, v2: string,
                                        a: Handler, b: Handler, t1: string, t2: string, q: seq<string>)
    requires Flatten(routes, "", None) == [Bound(ks, v1, a, t1), Bound(ks, v2, b, t2)]
    ensures Declared(routes, q).Some? <==> IsPrefix(q, ks)
    ensures q == ks ==> Declared(routes, q) == Some(Info(map[v1 := a][v2 := b], t2, false))
  {
    var es := Flatten(routes, "", None);
    ViewNewNode(q);
    var v := ApplyEntry(View(NewNode(), q), es[0], q);
    assert es[1..][0] == es[1] && es[1..][1..] == [];
    assert Overlay(View(NewNode(), q), es, q) == Overlay(v, es[1..], q);
    assert Overlay(v, es[1..], q) == Overlay(ApplyEntry(v, es[1], q), [], q);
    if q == ks {
      assert IsPrefix(q, ks);
    }
  }

  /** Hence a request for the earlier route runs the earlier handler but
      carries the later template. */
  lemma ServeSharedNode(ts1: seq<Segment>, ts2: seq<Segment>, segs: seq<string>,
                        v1: string, v2: string, h1: nat, h2: nat)
    requires Declarable(ts1) && Declarable(ts2) && Instance(ts1, segs) && v1 != v2
    requires KeyPath(Texts(ts1)) == KeyPath(Texts(ts2))
    ensures var o := ServeHTTP(New(Single(ts1, v1, h1) + Single(ts2, v2, h2)), v1, "/" + Join(segs));
            && o.Invoke?
            && o.handler == Raw(h1)
            && RouteOf(o.request) == Render(ts2)
            && o.request.path == "/" + Join(segs)
            && o.request.params.None?
  {
    var routes := Single(ts1, v1, h1) + Single(ts2, v2, h2);
    var ks := KeyPath(Texts(ts1));
    var path := "/" + Join(segs);
    FlattenShared(ts1, ts2, v1, v2, h1, h2);
    forall q
      ensures Declared(routes, q).Some? <==> IsPrefix(q, ks)
    {
      DeclaredPair(routes, ks, v1, v2, Raw(h1), Raw(h2), Render(ts1), Render(ts2), q);
    }
    DeclaredPair(routes, ks, v1, v2, Raw(h1), Raw(h2), Render(ts1), Render(ts2), ks);
    KeyPathTexts(ts1);
    SplitInstance(ts1, segs);
    LeadsFrom(routes, ts1, segs, ks, 0);
    assert ks[..0] == [] && segs[0..] == segs && ks[0..] == ks;
    assert ([""] + segs)[1..] == segs;
    ServeDeclaredHandler(routes, v1, path, ks);
  }

  /** With the same method the later binding overwrites the earlier one: a
      request for the earlier route runs the later handler, under the later
      template. */
  lemma ServeSharedNodeSameMethod(ts1: seq<Segment>, ts2: seq<Segment>, segs: seq<string>,
                                  v: string, h1: nat, h2: nat)
    requires Declarable(ts1) && Declarable(ts2) && Instance(ts1, segs)
    requires KeyPath(Texts(ts1)) == KeyPath(Texts(ts2))
    ensures var o := ServeHTTP(New(Single(ts1, v, h1) + Single(ts2, v, h2)), v, "/" + Join(segs));
            && o.Invoke?
            && o.handler == Raw(h2)
            && RouteOf(o.request) == Render(ts2)
  {
    var routes := Single(ts1, v, h1) + Single(ts2, v, h2);
    var ks := KeyPath(Texts(ts1));
    var path := "/" + Join(segs);
    FlattenShared(ts1, ts2, v, v, h1, h2);
    forall q
      ensures Declared(routes, q).Some? <==> IsPrefix(q, ks)
    {
      DeclaredPair(routes, ks, v, v, Raw(h1), Raw(h2), Render(ts1), Render(ts2), q);
    }
    DeclaredPair(routes, ks, v, v, Raw(h1), Raw(h2), Render(ts1), Render(ts2), ks);
    KeyPathTexts(ts1);
    SplitInstance(ts1, segs);
    LeadsFrom(routes, ts1, segs, ks, 0);
    assert ks[..0] == [] && segs[0..] == segs && ks[0..] == ks;
    assert ([""] + segs)[1..] == segs;
    ServeDeclaredHandler(routes, v, path, ks);
  }

  /** A path for the earlier of two templates sharing a node is also a path
      for the later one, unless the later one spells a literal `?` (the
      parameter key) where the earlier one has a parameter. */
  lemma SharedInstance(ts1: seq<Segment>, ts2: seq<Segment>, segs: seq<string>)
    requires Declarable(ts1) && Declarable(ts2) && Instance(ts1, segs)
    requires KeyPath(Texts(ts1)) == KeyPath(Texts(ts2))
    requires |ts1| == |ts2| && forall i | 0 <= i < |ts2| :: ts2[i] == Lit(ParamKey) ==> ts1[i].Lit?
    ensures Instance(ts2, segs)
  {
    KeyPathTexts(ts1);
    KeyPathTexts(ts2);
    forall i | 0 <= i < |ts2|
      ensures match ts2[i]
              case Lit(t) => segs[i] == t
              case Param(_) => segs[i] != "" && '/' !in segs[i]
    {
      assert KeyOfSegment(ts1[i]) == KeyOfSegment(ts2[i]);
      assert WellFormed(ts1[i]);
    }
  }

  /** The parameters of that request are read under the later route's
      names: Params binds the later template's names to the path's values. */
  lemma ServeSharedNodeParams(ts1: seq<Segment>, ts2: seq<Segment>, segs: seq<string>,
                              v1: string, v2: string, h1: nat, h2: nat)
    requires Declarable(ts1) && Declarable(ts2) && Instance(ts1, segs) && Instance(ts2, segs) && v1 != v2
    requires KeyPath(Texts(ts1)) == KeyPath(Texts(ts2))
    ensures var o := ServeHTTP(New(Single(ts1, v1, h1) + Single(ts2, v2, h2)), v1, "/" + Join(segs));
            && o.Invoke?
            && ParseDefined(RouteOf(o.request), o.request.path)
            && Params(o.request).1
                 == if exists i | 0 <= i < |ts2| :: ts2[i].Param? then Some(Bindings(ts2, segs, map[])) else None
  {
    ServeSharedNode(ts1, ts2, segs, v1, v2, h1, h2);
    ParseRoundTrip(ts2, segs, map[]);
    SigilIffParam(ts2);
  }
}
