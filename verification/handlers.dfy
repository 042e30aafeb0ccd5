/** Handlers and middleware as symbolic values. A declared handler or
    middleware is an opaque id; the closures node.go builds become data:
    a wrapped handler records which middleware layer sits around which
    inner handler, and a composed middleware records which layer is outer. */
module Handlers {
  import opened Options

  type HandlerId = nat
  type MiddlewareId = nat

  /** A handler the trie binds: a declared handler, or one middleware layer
      wrapped around an inner handler. */
  datatype Handler = Raw(id: HandlerId) | Wrapped(layer: MiddlewareId, next: Handler)

  /** A middleware value: a declared middleware, or the closure
      `func(next) { return outer(inner(next)) }` built when an inherited
      middleware meets a route's own. */
  datatype Middleware = Mw(id: MiddlewareId) | Compose(outer: Middleware, inner: Middleware)

  /** The declared middleware a middleware value consists of, outermost first. */
  function Layers(m: Middleware): (ls: seq<MiddlewareId>)
    ensures |ls| >= 1
  {
    match m
    case Mw(id) => [id]
    case Compose(o, i) => Layers(o) + Layers(i)
  }

  /** Layers of an optional middleware; nil has none. */
  function LayersOf(m: Option<Middleware>): seq<MiddlewareId> {
    match m
    case None => []
    case Some(mw) => Layers(mw)
  }

  /** `ls` wrapped around `h`, the first layer outermost. */
  function WrapAll(ls: seq<MiddlewareId>, h: Handler): Handler {
    if ls == [] then h else Wrapped(ls[0], WrapAll(ls[1..], h))
  }

  /** The middleware applied to a handler: `m(next)`. */
  function Apply(m: Middleware, next: Handler): Handler {
    match m
    case Mw(id) => Wrapped(id, next)
    case Compose(o, i) => Apply(o, Apply(i, next))
  }

  lemma {:induction false} WrapAllAppend(a: seq<MiddlewareId>, b: seq<MiddlewareId>, h: Handler)
    ensures WrapAll(a + b, h) == WrapAll(a, WrapAll(b, h))
  {
    if a != [] {
      assert (a + b)[0] == a[0];
      assert (a + b)[1..] == a[1..] + b;
      WrapAllAppend(a[1..], b, h);
    } else {
      assert a + b == b;
    }
  }

  /** Applying a middleware value wraps the handler in its layers, outermost first. */
  lemma {:induction false} ApplyWrapsLayers(m: Middleware, next: Handler)
    ensures Apply(m, next) == WrapAll(Layers(m), next)
  {
    match m
    case Mw(id) =>
    case Compose(o, i) =>
      ApplyWrapsLayers(i, next);
      ApplyWrapsLayers(o, Apply(i, next));
      WrapAllAppend(Layers(o), Layers(i), next);
  }

  /** The middleware a declaration passes on (node.go:37-46): the inherited
      middleware stays outside the route's own, and nil on both sides stays nil. */
  function Combine(inherited: Option<Middleware>, own: Option<MiddlewareId>): (m: Option<Middleware>)
    ensures m.None? <==> inherited.None? && own.None?
    ensures LayersOf(m) == LayersOf(inherited) + (if own.Some? then [own.value] else [])
  {
    if inherited.Some? && own.Some? then
      assert Layers(Compose(inherited.value, Mw(own.value))) == Layers(inherited.value) + [own.value];
      Some(Compose(inherited.value, Mw(own.value)))
    else if inherited.Some? then inherited
    else if own.Some? then Some(Mw(own.value))
    else None
  }

  /** The handler bound on a leaf (node.go:51-55): `m(handler)` when some
      middleware is in effect, the declared handler itself otherwise. */
  function BindHandler(m: Option<Middleware>, h: HandlerId): (r: Handler)
    ensures r == WrapAll(LayersOf(m), Raw(h))
  {
    if m.Some? then
      ApplyWrapsLayers(m.value, Raw(h));
      Apply(m.value, Raw(h))
    else Raw(h)
  }

  /** What running a bound handler does, when every middleware layer runs
      its own code, calls the next handler, then runs code after it returns. */
  datatype Event = Before(layer: MiddlewareId) | Run(handler: HandlerId) | After(layer: MiddlewareId)

  function Trace(h: Handler): seq<Event> {
    match h
    case Raw(id) => [Run(id)]
    case Wrapped(l, next) => [Before(l)] + Trace(next) + [After(l)]
  }

  function Befores(ls: seq<MiddlewareId>): (es: seq<Event>)
    ensures |es| == |ls|
    ensures forall i | 0 <= i < |ls| :: es[i] == Before(ls[i])
  {
    if ls == [] then [] else [Before(ls[0])] + Befores(ls[1..])
  }

  function Afters(ls: seq<MiddlewareId>): (es: seq<Event>)
    ensures |es| == |ls|
    ensures forall i | 0 <= i < |ls| :: es[i] == After(ls[|ls| - 1 - i])
  {
    if ls == [] then [] else Afters(ls[1..]) + [After(ls[0])]
  }

  /** Onion order: the layers' code before the handler runs outermost first,
      their code after it runs innermost first. */
  lemma {:induction false} WrapAllOnion(ls: seq<MiddlewareId>, h: HandlerId)
    ensures Trace(WrapAll(ls, Raw(h))) == Befores(ls) + [Run(h)] + Afters(ls)
  {
    if ls != [] {
      WrapAllOnion(ls[1..], h);
    }
  }

  /** A leaf under ancestor middleware `a` and with its own middleware `b`
      runs a's code, then b's, then the handler, then b's and a's code after it. */
  lemma NestedMiddlewareOrder(a: MiddlewareId, b: MiddlewareId, h: HandlerId)
    ensures Trace(BindHandler(Combine(Combine(None, Some(a)), Some(b)), h))
         == [Before(a), Before(b), Run(h), After(b), After(a)]
  {
    var m := Combine(Combine(None, Some(a)), Some(b));
    assert LayersOf(m) == [a, b];
    WrapAllOnion([a, b], h);
  }
}
