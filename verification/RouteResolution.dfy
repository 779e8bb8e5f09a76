/** Finding the handler of a request for rate limiting: a search through routes and nested routers
    that must give what a flat search through all routes would give. */
module RouteResolution {
  import opened Basics

  type Handler = string

  /** An entry of a route list: a wrapper around a nested router, something that can be matched
      against the request (fully or not) and may have an endpoint, or something that cannot. */
  datatype Route =
    | Nested(routes: seq<Route>)
    | Matchable(full: bool, endpoint: Option<Handler>)
    | Other

  /** The route list with every nested router replaced by its routes. */
  function Flatten(routes: seq<Route>): seq<Route> {
    if routes == [] then []
    else (if routes[0].Nested? then Flatten(routes[0].routes) else [routes[0]]) + Flatten(routes[1..])
  }

  predicate Hit(r: Route) {
    r.Matchable? && r.full && r.endpoint.Some?
  }

  /** The flat search: the last full match that has an endpoint. */
  function LastHit(routes: seq<Route>): Option<Handler>
    decreases |routes|
  {
    if routes == [] then None
    else if Hit(routes[|routes| - 1]) then routes[|routes| - 1].endpoint
    else LastHit(routes[..|routes| - 1])
  }

  lemma {:induction false} LastHitMeaning(routes: seq<Route>, h: Handler)
    ensures LastHit(routes) == Some(h) <==>
            exists i :: 0 <= i < |routes| && routes[i] == Matchable(true, Some(h))
                     && forall j, g :: i < j < |routes| ==> routes[j] != Matchable(true, Some(g))
    ensures LastHit(routes) == None <==> forall i, g :: 0 <= i < |routes| ==> routes[i] != Matchable(true, Some(g))
    decreases |routes|
  {
    if routes == [] {
    } else {
      var front, last := routes[..|routes| - 1], routes[|routes| - 1];
      LastHitMeaning(front, h);
      assert forall i :: 0 <= i < |front| ==> front[i] == routes[i];
    }
  }

  lemma {:induction false} LastHitAppend(a: seq<Route>, b: seq<Route>)
    ensures LastHit(a + b) == if LastHit(b).Some? then LastHit(b) else LastHit(a)
    decreases |b|
  {
    if b == [] {
      assert a + b == a;
    } else {
      assert (a + b)[..|a + b| - 1] == a + b[..|b| - 1];
      LastHitAppend(a, b[..|b| - 1]);
    }
  }

  lemma {:induction false} FlattenAppend(a: seq<Route>, b: seq<Route>)
    ensures Flatten(a + b) == Flatten(a) + Flatten(b)
    decreases |a|
  {
    if a == [] {
      assert a + b == b;
    } else {
      assert (a + b)[1..] == a[1..] + b;
      FlattenAppend(a[1..], b);
    }
  }

  lemma FlattenLast(routes: seq<Route>, i: nat)
    requires i < |routes|
    ensures Flatten(routes[..i + 1]) ==
            Flatten(routes[..i]) + if routes[i].Nested? then Flatten(routes[i].routes) else [routes[i]]
  {
    assert routes[..i + 1] == routes[..i] + [routes[i]];
    FlattenAppend(routes[..i], [routes[i]]);
    assert [routes[i]][1..] == [];
  }

  /** The recursive search as it is written finds exactly what the flat search finds. */
  method FindRouteHandler(routes: seq<Route>) returns (handler: Option<Handler>)
    ensures handler == LastHit(Flatten(routes))
    decreases routes
  {
    handler := None;
    for i := 0 to |routes|
      invariant handler == LastHit(Flatten(routes[..i]))
    {
      var route := routes[i];
      FlattenLast(routes, i);
      if route.Nested? {
        var found := FindRouteHandler(route.routes);
        LastHitAppend(Flatten(routes[..i]), Flatten(route.routes));
        if found.Some? {
          handler := found;
        }
        continue;
      }
      LastHitAppend(Flatten(routes[..i]), [route]);
      assert [route][..0] == [];
      if route.Other? { continue; }
      if route.full && route.endpoint.Some? {
        handler := route.endpoint;
      }
    }
    assert routes[..|routes|] == routes;
  }

  /** A nested router without a match never hides a handler, wherever it stands and however deep. */
  lemma EmptyRouterHidesNothing(before: seq<Route>, inner: seq<Route>, after: seq<Route>)
    requires LastHit(Flatten(inner)) == None
    ensures LastHit(Flatten(before + [Nested(inner)] + after)) == LastHit(Flatten(before + after))
  {
    FlattenAppend(before + [Nested(inner)], after);
    FlattenAppend(before, [Nested(inner)]);
    FlattenAppend(before, after);
    assert [Nested(inner)][1..] == [];
    assert Flatten([Nested(inner)]) == Flatten(inner);
    assert Flatten(before + [Nested(inner)] + after) == Flatten(before) + Flatten(inner) + Flatten(after);
    LastHitAppend(Flatten(before) + Flatten(inner), Flatten(after));
    LastHitAppend(Flatten(before), Flatten(inner));
    LastHitAppend(Flatten(before), Flatten(after));
  }

  /** Including a router is the same as listing its routes in its place. */
  lemma IncludingIsListing(before: seq<Route>, inner: seq<Route>, after: seq<Route>)
    ensures Flatten(before + [Nested(inner)] + after) == Flatten(before + inner + after)
  {
    FlattenAppend(before + [Nested(inner)], after);
    FlattenAppend(before, [Nested(inner)]);
    FlattenAppend(before + inner, after);
    FlattenAppend(before, inner);
    assert [Nested(inner)][1..] == [];
  }
}
