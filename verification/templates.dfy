/** Parameter extraction against its inverse: a route template is a list of
    literal and `:name` segments, a request path is the template with a
    value put in each parameter position, and Parse recovers those values
    by name. */
module Templates {
  import opened Strings
  import opened Requests

  datatype Segment = Lit(text: string) | Param(name: string)

  /** A literal holds neither a slash nor a sigil; a parameter name is
      non-empty and holds no slash. */
  predicate WellFormed(s: Segment) {
    match s
    case Lit(t) => '/' !in t && ':' !in t
    case Param(n) => n != "" && '/' !in n
  }

  function Text(s: Segment): string {
    match s
    case Lit(t) => t
    case Param(n) => ":" + n
  }

  function Texts(ts: seq<Segment>): (r: seq<string>)
    ensures |r| == |ts|
    ensures forall i | 0 <= i < |ts| :: r[i] == Text(ts[i])
  {
    if ts == [] then [] else [Text(ts[0])] + Texts(ts[1..])
  }

  /** The template as declared: `/seg/seg/...`. */
  function Render(ts: seq<Segment>): string
    requires |ts| >= 1
  {
    "/" + Join(Texts(ts))
  }

  /** `segs` is the template with a value in each parameter position: the
      literals are kept, and each value is non-empty and slash-free. */
  predicate Instance(ts: seq<Segment>, segs: seq<string>) {
    && |segs| == |ts|
    && forall i | 0 <= i < |ts| ::
         match ts[i]
         case Lit(t) => segs[i] == t
         case Param(_) => segs[i] != "" && '/' !in segs[i]
  }

  /** The names bound to their values, later positions overriding earlier ones. */
  function Bindings(ts: seq<Segment>, segs: seq<string>, p: ParamMap): ParamMap
    requires |segs| == |ts|
  {
    if ts == [] then p
    else
      var p' := if ts[0].Param? then p[ts[0].name := segs[0]] else p;
      Bindings(ts[1..], segs[1..], p')
  }

  // ---------------------------------------------------------------------
  // Parse, one piece at a time
  // ---------------------------------------------------------------------

  // ScanOnce under each outcome of its three searches.

  lemma {:induction false} ScanNone(route: string, path: string)
    requires IndexByte(route, ':') == -1
    ensures ScanOnce(route, path) == Done
  {
  }

  lemma {:induction false} ScanPanic(route: string, path: string, i: nat)
    requires IndexByte(route, ':') == i && i > |path|
    ensures ScanOnce(route, path) == Panic
  {
  }

  lemma {:induction false} ScanBind(route: string, path: string, i: nat, k: int, j2: int)
    requires IndexByte(route, ':') == i && i <= |path|
    requires IndexByte(route[i + 1..], '/') == k && k > 0
    requires IndexByte(path[i..], '/') == j2 && j2 > 0
    ensures ScanOnce(route, path) == Bind(route[i + 1..k + i + 1], path[i..i + j2], route[k + i + 2..], path[i + j2 + 1..])
  {
  }

  lemma {:induction false} ScanStop(route: string, path: string, i: nat, k: int)
    requires IndexByte(route, ':') == i && i <= |path|
    requires IndexByte(route[i + 1..], '/') == k && k > 0
    requires IndexByte(path[i..], '/') <= 0
    ensures ScanOnce(route, path) == Done
  {
  }

  lemma {:induction false} ScanFinal(route: string, path: string, i: nat)
    requires IndexByte(route, ':') == i && i <= |path|
    requires IndexByte(route[i + 1..], '/') <= 0
    ensures ScanOnce(route, path) == Final(route[i + 1..], path[i..])
  {
  }

  /** Text before the first `:` that is equally long in template and path
      is skipped by the scan: it sees the same thing in what follows. */
  lemma {:induction false} ScanShift(a: string, r: string, b: string, q: string)
    requires |a| == |b| && ':' !in a
    ensures ScanOnce(a + r, b + q) == ScanOnce(r, q)
  {
    IndexByteAfter(a, r, ':');
    IndexByteSpec(r, ':');
    var i0 := IndexByte(r, ':');
    if i0 == -1 {
      ScanNone(a + r, b + q);
      ScanNone(r, q);
    } else if i0 > |q| {
      ScanPanic(a + r, b + q, |a| + i0);
      ScanPanic(r, q, i0);
    } else {
      ScanShiftAt(a, r, b, q, i0);
    }
  }

  /** ScanShift when `r` has its first `:` at `i0`, within reach of `q`. */
  lemma {:induction false} ScanShiftAt(a: string, r: string, b: string, q: string, i0: nat)
    requires |a| == |b| && IndexByte(a + r, ':') == |a| + i0
    requires IndexByte(r, ':') == i0 && i0 <= |q|
    ensures ScanOnce(a + r, b + q) == ScanOnce(r, q)
  {
    var i := |a| + i0;
    assert (a + r)[i + 1..] == r[i0 + 1..];
    assert (b + q)[i..] == q[i0..];
    var k := IndexByte(r[i0 + 1..], '/');
    var j2 := IndexByte(q[i0..], '/');
    if k > 0 && j2 > 0 {
      ShiftBind(a, r, b, q, i0, k, j2);
    } else if k > 0 {
      ScanStop(a + r, b + q, i, k);
      ScanStop(r, q, i0, k);
    } else {
      ScanFinal(a + r, b + q, i);
      ScanFinal(r, q, i0);
    }
  }

  lemma {:induction false} ShiftBind(a: string, r: string, b: string, q: string, i0: nat, k: int, j2: int)
    requires |a| == |b| && IndexByte(a + r, ':') == |a| + i0
    requires IndexByte(r, ':') == i0 && i0 <= |q|
    requires IndexByte(r[i0 + 1..], '/') == k > 0 && IndexByte(q[i0..], '/') == j2 > 0
    requires (a + r)[|a| + i0 + 1..] == r[i0 + 1..] && (b + q)[|a| + i0..] == q[i0..]
    ensures ScanOnce(a + r, b + q) == ScanOnce(r, q)
  {
    var i := |a| + i0;
    ScanBind(a + r, b + q, i, k, j2);
    ScanBind(r, q, i0, k, j2);
    ShiftSlices(a, r, b, q, i0, k, j2);
    assert (a + r)[i + 1..k + i + 1] == r[i0 + 1..k + i0 + 1];
    assert (a + r)[k + i + 2..] == r[k + i0 + 2..];
    assert (b + q)[i..i + j2] == q[i0..i0 + j2];
    assert (b + q)[i + j2 + 1..] == q[i0 + j2 + 1..];
  }

  lemma ShiftSlices(a: string, r: string, b: string, q: string, i0: nat, k: nat, j2: nat)
    requires |a| == |b| && i0 + k + 1 < |r| && i0 + j2 < |q|
    ensures (a + r)[|a| + i0 + 1..k + |a| + i0 + 1] == r[i0 + 1..k + i0 + 1]
    ensures (a + r)[k + |a| + i0 + 2..] == r[k + i0 + 2..]
    ensures (b + q)[|a| + i0..|a| + i0 + j2] == q[i0..i0 + j2]
    ensures (b + q)[|a| + i0 + j2 + 1..] == q[i0 + j2 + 1..]
  {
    assert (a + r)[|a|..] == r;
    assert (b + q)[|a|..] == q;
  }

  /** Hence Parse is unaffected by such a prefix. */
  lemma {:induction false} ParseShift(a: string, r: string, b: string, q: string, p: ParamMap)
    requires |a| == |b| && ':' !in a
    ensures ParseDefined(a + r, b + q) <==> ParseDefined(r, q)
    ensures ParseDefined(r, q) ==> Parse(a + r, b + q, p) == Parse(r, q, p)
  {
    ScanShift(a, r, b, q);
  }

  /** `:name/` in the template against `value/` in the path binds the name
      to the value and goes on after both slashes. */
  lemma {:induction false} ScanParam(n: string, x: string, v: string, y: string)
    requires n != "" && '/' !in n && v != "" && '/' !in v
    ensures ScanOnce(":" + n + "/" + x, v + "/" + y) == Bind(n, v, x, y)
  {
    var route := ":" + n + "/" + x;
    var path := v + "/" + y;
    SigilFirst(n, x);
    assert path[0..] == v + "/" + y;
    IndexByteAt(v, y, '/');
    ScanBind(route, path, 0, |n|, |v|);
    assert route == ":" + (n + "/" + x);
    var tail := n + "/" + x;
    assert route[1..] == tail;
    assert route[1..|n| + 1] == tail[..|n|];
    assert tail[..|n|] == n;
    assert route[|n| + 2..] == tail[|n| + 1..];
    assert tail[|n| + 1..] == x;
    assert path[0..|v|] == v;
    assert path[|v| + 1..] == y;
  }

  /** In `:name/rest` the `:` comes first and the name ends at the slash. */
  lemma {:induction false} SigilFirst(n: string, x: string)
    requires '/' !in n
    ensures IndexByte(":" + n + "/" + x, ':') == 0
    ensures IndexByte((":" + n + "/" + x)[1..], '/') == |n|
  {
    var route := ":" + n + "/" + x;
    assert route[0] == ':';
    assert route[1..] == n + "/" + x;
    IndexByteAt(n, x, '/');
  }

  lemma {:induction false} ParseParamStep(n: string, x: string, v: string, y: string, p: ParamMap)
    requires n != "" && '/' !in n && v != "" && '/' !in v
    ensures ParseDefined(":" + n + "/" + x, v + "/" + y) <==> ParseDefined(x, y)
    ensures ParseDefined(x, y) ==> Parse(":" + n + "/" + x, v + "/" + y, p) == Parse(x, y, p[n := v])
  {
    ScanParam(n, x, v, y);
  }

  /** A last `:name` in the template takes the whole rest of the path. */
  lemma {:induction false} ParseLastParam(n: string, v: string, p: ParamMap)
    requires '/' !in n
    ensures ParseDefined(":" + n, v)
    ensures Parse(":" + n, v, p) == p[n := v]
  {
    var route := ":" + n;
    assert IndexByte(route, ':') == 0 by { assert route[0] == ':'; }
    assert route[1..] == n;
    IndexByteSpec(n, '/');
    ScanFinal(route, v, 0);
    assert v[0..] == v;
  }

  /** A template without a `:` binds nothing. */
  lemma {:induction false} ParseNoSigil(route: string, path: string, p: ParamMap)
    requires ':' !in route
    ensures ParseDefined(route, path) && Parse(route, path, p) == p
  {
    IndexByteSpec(route, ':');
    ScanNone(route, path);
  }

  /** Whatever precedes a final `:name` in the template, as long as it has
      no `:` and the path is at least as long, the name takes everything of
      the path from the same offset on, slashes included. */
  lemma {:induction false} FinalParamTakesSuffix(pre: string, n: string, path: string, p: ParamMap)
    requires ':' !in pre && '/' !in n && |pre| <= |path|
    ensures ParseDefined(pre + ":" + n, path)
    ensures Parse(pre + ":" + n, path, p) == p[n := path[|pre|..]]
  {
    assert pre + ":" + n == pre + (":" + n);
    assert path == path[..|pre|] + path[|pre|..];
    ParseLastParam(n, path[|pre|..], p);
    ParseShift(pre, ":" + n, path[..|pre|], path[|pre|..], p);
  }

  /** A first `:` that lies beyond the end of the path makes parse slice
      past the end (request.go:68), where Go panics. */
  lemma ParsePastEnd(pre: string, rest: string, path: string)
    requires ':' !in pre && |pre| > |path|
    ensures !ParseDefined(pre + ":" + rest, path)
  {
    IndexByteAt(pre, rest, ':');
  }

  /** An empty value stops the scan: whatever follows binds nothing. */
  lemma {:induction false} ParseStopsAtEmptyValue(n: string, x: string, y: string, p: ParamMap)
    requires n != "" && '/' !in n
    ensures ParseDefined(":" + n + "/" + x, "/" + y)
    ensures Parse(":" + n + "/" + x, "/" + y, p) == p
  {
    var route := ":" + n + "/" + x;
    var path := "/" + y;
    SigilFirst(n, x);
    assert path[0..] == path;
    assert IndexByte(path, '/') == 0;
    ScanStop(route, path, 0, |n|);
  }

  // ---------------------------------------------------------------------
  // Which names Parse binds
  // ---------------------------------------------------------------------

  /** `k` is spelled right after some `:` of the template. */
  predicate FollowsSigil(route: string, k: string) {
    exists i | 0 <= i < |route| && route[i] == ':' ::
      i + 1 + |k| <= |route| && route[i + 1..i + 1 + |k|] == k
  }

  /** Where in the template a Bind or Final of the scan comes from. */
  lemma {:induction false} ScanSource(route: string, path: string) returns (i: nat, j1: nat)
    ensures ScanOnce(route, path).Bind? ==>
              i < j1 < |route| && route[i] == ':' &&
              ScanOnce(route, path).name == route[i + 1..j1] &&
              ScanOnce(route, path).route == route[j1 + 1..]
    ensures ScanOnce(route, path).Final? ==>
              i < |route| && route[i] == ':' && ScanOnce(route, path).name == route[i + 1..]
  {
    IndexByteSpec(route, ':');
    var at := IndexByte(route, ':');
    if at == -1 {
      ScanNone(route, path);
      return 0, 0;
    }
    if at > |path| {
      ScanPanic(route, path, at);
      return 0, 0;
    }
    var k := IndexByte(route[at + 1..], '/');
    if k > 0 {
      IndexByteSpec(route[at + 1..], '/');
      var j2 := IndexByte(path[at..], '/');
      if j2 > 0 {
        ScanBind(route, path, at, k, j2);
      } else {
        ScanStop(route, path, at, k);
      }
      return at, k + at + 1;
    }
    ScanFinal(route, path, at);
    return at, 0;
  }

  /** Every name Parse adds is spelled right after a `:` of the template. */
  lemma {:induction false} ParseKeysFollowSigils(route: string, path: string, p: ParamMap)
    requires ParseDefined(route, path)
    ensures forall k | k in Parse(route, path, p) && k !in p :: FollowsSigil(route, k)
    decreases |route|
  {
    var i, j1 := ScanSource(route, path);
    match ScanOnce(route, path)
    case Bind(n, v, r, q) =>
      ParseKeysFollowSigils(r, q, p[n := v]);
      forall k | k in Parse(route, path, p) && k !in p
        ensures FollowsSigil(route, k)
      {
        if k == n {
          assert route[i + 1..i + 1 + |k|] == n;
        } else {
          SigilInRest(route, j1, k);
        }
      }
    case Final(n, v) =>
      assert route[i + 1..i + 1 + |n|] == n;
    case _ =>
  }

  /** A name after a `:` of a suffix of the template follows a `:` of the template. */
  lemma SigilInRest(route: string, j1: nat, k: string)
    requires j1 < |route| && FollowsSigil(route[j1 + 1..], k)
    ensures FollowsSigil(route, k)
  {
    var r := route[j1 + 1..];
    var i' :| 0 <= i' < |r| && r[i'] == ':' && i' + 1 + |k| <= |r| && r[i' + 1..i' + 1 + |k|] == k;
    var at := j1 + 1 + i';
    assert route[at] == ':';
    assert route[at + 1..at + 1 + |k|] == r[i' + 1..i' + 1 + |k|];
  }

  /** Parse adds at most one name per `:` of the template. */
  lemma {:induction false} ParseKeysCount(route: string, path: string, p: ParamMap)
    requires ParseDefined(route, path)
    ensures |Parse(route, path, p).Keys| <= |p.Keys| + multiset(route)[':']
    decreases |route|
  {
    var i, j1 := ScanSource(route, path);
    match ScanOnce(route, path)
    case Bind(n, v, r, q) =>
      ParseKeysCount(r, q, p[n := v]);
      OneMoreKey(p, n, v);
      SigilBeforeRest(route, i, j1);
    case Final(n, v) =>
      OneMoreKey(p, n, v);
      assert route[i] in multiset(route);
    case _ =>
  }

  lemma OneMoreKey(p: ParamMap, n: string, v: string)
    ensures |p[n := v].Keys| <= |p.Keys| + 1
  {
    assert p[n := v].Keys == p.Keys + {n};
  }

  /** A `:` at `i` before the cut at `j1` counts once more than the `:`s after the cut. */
  lemma SigilBeforeRest(route: string, i: nat, j1: nat)
    requires i < j1 < |route| && route[i] == ':'
    ensures multiset(route)[':'] >= 1 + multiset(route[j1 + 1..])[':']
  {
    assert route == route[..j1 + 1] + route[j1 + 1..];
    assert route[..j1 + 1][i] == ':';
    assert ':' in multiset(route[..j1 + 1]);
  }

  // ---------------------------------------------------------------------
  // Round trip
  // ---------------------------------------------------------------------

  /** Parse on the joined segments (without the leading slash) recovers the bindings. */
  lemma {:induction false} ParseJoined(ts: seq<Segment>, segs: seq<string>, p: ParamMap)
    requires |ts| >= 1
    requires forall i | 0 <= i < |ts| :: WellFormed(ts[i])
    requires Instance(ts, segs)
    ensures ParseDefined(Join(Texts(ts)), Join(segs))
    ensures Parse(Join(Texts(ts)), Join(segs), p) == Bindings(ts, segs, p)
    decreases |ts|
  {
    var t := Texts(ts);
    var s0 := segs[0];
    var p' := if ts[0].Param? then p[ts[0].name := s0] else p;
    assert Instance(ts[1..], segs[1..]);
    assert Texts(ts[1..]) == t[1..];
    if |ts| == 1 {
      assert Bindings(ts[1..], segs[1..], p') == p';
      match ts[0]
      case Lit(x) =>
        ParseNoSigil(x, s0, p);
      case Param(n) =>
        ParseLastParam(n, s0, p);
    } else {
      var x := Join(t[1..]);
      var y := Join(segs[1..]);
      ParseJoined(ts[1..], segs[1..], p');
      assert Join(t) == t[0] + "/" + x;
      assert Join(segs) == s0 + "/" + y;
      match ts[0]
      case Lit(lit) =>
        assert Join(t) == (lit + "/") + x;
        assert Join(segs) == (lit + "/") + y;
        ParseShift(lit + "/", x, lit + "/", y, p);
      case Param(n) =>
        assert Join(t) == ":" + n + "/" + x;
        ParseParamStep(n, x, s0, y, p);
    }
  }

  /** Parse inverts instantiation: for a well-formed template and a path
      that puts non-empty slash-free values in its parameter positions,
      Parse is defined and maps every name to its value (the last one when
      a name repeats), on top of the bindings it started from. */
  lemma {:induction false} ParseRoundTrip(ts: seq<Segment>, segs: seq<string>, p: ParamMap)
    requires |ts| >= 1
    requires forall i | 0 <= i < |ts| :: WellFormed(ts[i])
    requires Instance(ts, segs)
    ensures ParseDefined(Render(ts), "/" + Join(segs))
    ensures Parse(Render(ts), "/" + Join(segs), p) == Bindings(ts, segs, p)
  {
    ParseJoined(ts, segs, p);
    ParseShift("/", Join(Texts(ts)), "/", Join(segs), p);
  }
}
