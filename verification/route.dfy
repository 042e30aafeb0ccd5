/** A route declaration as the caller writes it: a path, and either a method
    with a handler (a leaf) or a list of nested declarations (a group).
    Middleware is optional on both kinds. */
module Routes {
  import opened Options
  import opened Handlers

  datatype Route = Route(
    path: string,
    httpMethod: string,
    handler: HandlerId,
    middleware: Option<MiddlewareId>,
    children: seq<Route>)
  {
    /** A declaration with children is a group; one without is a leaf. */
    predicate IsGroup() {
      |children| > 0
    }
  }

  /** Number of declarations in `r`, nested ones included; a termination measure. */
  function Size(r: Route): nat {
    1 + SizeAll(r.children)
  }

  function SizeAll(rs: seq<Route>): nat {
    if rs == [] then 0 else Size(rs[0]) + SizeAll(rs[1..])
  }
}
