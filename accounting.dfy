/**
 * The request counter over the life of the process: the state it reaches
 * after any sequence of handled requests, and what that state promises.
 */
module Accounting {
  import opened Text
  import opened Metrics
  import opened Api

  /** A request as it reaches one of the three views. */
  datatype Route = ApiCall(req: Request) | MetricsCall | HealthCall

  /** The counter after one view ran: only /api calls increment, by one child. */
  function Step(cells: Cells, route: Route): (r: Cells)
    ensures forall l :: CountOf(r, l) == CountOf(cells, l) + (if route.ApiCall? && ApiLabels(route.req.verb) == l then 1 else 0)
  {
    match route
    case ApiCall(req) => Incremented(cells, ApiLabels(req.verb))
    case MetricsCall => cells
    case HealthCall => cells
  }

  /** The counter after the views ran on the routes in order. */
  function CountsAfter(cells: Cells, routes: seq<Route>): (r: Cells)
    ensures forall l :: CountOf(r, l) >= CountOf(cells, l)
    decreases |routes|
  {
    if routes == [] then cells else CountsAfter(Step(cells, routes[0]), routes[1..])
  }

  /** How many of the routes are /api calls counted under l. */
  function ApiCallsUnder(routes: seq<Route>, l: Labels): nat
  {
    if routes == [] then 0
    else (if routes[0].ApiCall? && ApiLabels(routes[0].req.verb) == l then 1 else 0) + ApiCallsUnder(routes[1..], l)
  }

  /** Each child grows by exactly the number of /api calls counted under it. */
  lemma {:induction false} CountsAfterExact(cells: Cells, routes: seq<Route>, l: Labels)
    ensures CountOf(CountsAfter(cells, routes), l) == CountOf(cells, l) + ApiCallsUnder(routes, l)
    decreases |routes|
  {
    if routes != [] {
      CountsAfterExact(Step(cells, routes[0]), routes[1..], l);
    }
  }

  /** Handling a sequence in two stretches is handling it in one. */
  lemma {:induction false} CountsAfterAppend(cells: Cells, rs: seq<Route>, ts: seq<Route>)
    ensures CountsAfter(cells, rs + ts) == CountsAfter(CountsAfter(cells, rs), ts)
    decreases |rs|
  {
    if rs == [] {
      assert rs + ts == ts;
    } else {
      assert (rs + ts)[0] == rs[0];
      assert (rs + ts)[1..] == rs[1..] + ts;
      CountsAfterAppend(Step(cells, rs[0]), rs[1..], ts);
    }
  }

  /** No child ever decreases: a later point of any run reads at least as much as an earlier one. */
  lemma CountsNeverDecrease(cells: Cells, routes: seq<Route>, i: nat, j: nat, l: Labels)
    requires i <= j <= |routes|
    ensures CountOf(CountsAfter(cells, routes[..i]), l) <= CountOf(CountsAfter(cells, routes[..j]), l)
  {
    assert routes[..j] == routes[..i] + routes[i..j];
    CountsAfterAppend(cells, routes[..i], routes[i..j]);
    CountsAfterExact(CountsAfter(cells, routes[..i]), routes[i..j], l);
  }

  /** Scrapes and health checks leave every child as it was. */
  lemma {:induction false} ConstantEndpointsCountNothing(cells: Cells, routes: seq<Route>)
    requires forall k :: 0 <= k < |routes| ==> !routes[k].ApiCall?
    ensures CountsAfter(cells, routes) == cells
    decreases |routes|
  {
    if routes != [] {
      ConstantEndpointsCountNothing(cells, routes[1..]);
    }
  }

  /**
   * Every child that exists was created by an /api call: endpoint "/api",
   * one of the routed verbs, and the text of the status the handler returns.
   */
  ghost predicate OnlyApiChildren(cells: Cells)
  {
    forall l :: l in cells ==> exists m: Method :: l == ApiLabels(m)
  }

  /** Starting from an empty counter, every child the run creates is an /api child labelled "200". */
  lemma {:induction false} ChildrenAreApiChildren(cells: Cells, routes: seq<Route>)
    requires OnlyApiChildren(cells)
    ensures OnlyApiChildren(CountsAfter(cells, routes))
    ensures forall l :: l in CountsAfter(cells, routes) ==>
      l.endpoint == ApiEndpoint && l.statusCode == Decimal(StatusOk)
    decreases |routes|
  {
    if routes != [] {
      var next := Step(cells, routes[0]);
      assert OnlyApiChildren(next) by {
        if routes[0].ApiCall? {
          var m := routes[0].req.verb;
          assert next.Keys == cells.Keys + {ApiLabels(m)};
        }
      }
      ChildrenAreApiChildren(next, routes[1..]);
    } else {
      forall l | l in cells ensures l.endpoint == ApiEndpoint && l.statusCode == Decimal(StatusOk) {
        var m: Method :| l == ApiLabels(m);
      }
    }
  }

  /**
   * The views run on a sequence of requests, each dispatched by its route:
   * the counter ends as CountsAfter says, every response has status 200 and
   * every /api response is the echo of its request.
   */
  method Serve(s: ApiService, routes: seq<Route>) returns (responses: seq<Response>)
    modifies s.requestCount
    ensures s.requestCount.cells == CountsAfter(old(s.requestCount.cells), routes)
    ensures |responses| == |routes|
    ensures forall k :: 0 <= k < |routes| ==> responses[k].status == StatusOk
    ensures forall k :: 0 <= k < |routes| && routes[k].ApiCall? ==>
      responses[k].body == Plain(RenderResponse(routes[k].req))
  {
    ghost var start := s.requestCount.cells;
    responses := [];
    var i := 0;
    while i < |routes|
      invariant 0 <= i <= |routes|
      invariant s.requestCount.cells == CountsAfter(start, routes[..i])
      invariant |responses| == i
      invariant forall k :: 0 <= k < i ==> responses[k].status == StatusOk
      invariant forall k :: 0 <= k < i && routes[k].ApiCall? ==>
        responses[k].body == Plain(RenderResponse(routes[k].req))
      decreases |routes| - i
    {
      var resp;
      match routes[i] {
        case ApiCall(req) => resp := s.ApiDetails(req);
        case MetricsCall => resp := s.Metrics();
        case HealthCall => resp := s.HealthCheck();
      }
      assert routes[..i + 1] == routes[..i] + [routes[i]];
      CountsAfterAppend(start, routes[..i], [routes[i]]);
      responses := responses + [resp];
      i := i + 1;
    }
    assert routes[..|routes|] == routes;
  }
}
