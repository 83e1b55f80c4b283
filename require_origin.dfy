/**
 * The origin gate placed in front of each route: outside wildcard mode it
 * lets a request through only when its classified origin is one of the
 * expected ones, and answers 404 otherwise.
 */
module RequireOrigin {
  import opened Strings
  import opened Http
  import opened Env

  function Gate(c: Config, expected: seq<Origin>, req: Request): (o: Outcome)
    ensures o == Next <==> c.wildcard || OriginFromRequest(c, req.hostname, req.pathname) in expected
    ensures o != Next ==> o == SendStatus(404)
  {
    if c.wildcard then Next
    else if OriginFromRequest(c, req.hostname, req.pathname) in expected then Next
    else SendStatus(404)
  }

  /** In wildcard mode every origin passes. */
  lemma WildcardPasses(c: Config, expected: seq<Origin>, req: Request)
    requires c.wildcard
    ensures Gate(c, expected, req) == Next
  {
  }

  /** A live-sample path never reaches a route that expects only the main origin. */
  lemma SampleNotServedAsMain(c: Config, req: Request)
    requires !c.wildcard && Contains(req.pathname, "/_sample_.")
    ensures Gate(c, [Main], req) == SendStatus(404)
  {
  }

  /** Adding origins to the expected list only lets more requests through. */
  lemma GateMonotone(c: Config, e1: seq<Origin>, e2: seq<Origin>, req: Request)
    requires forall o :: o in e1 ==> o in e2
    ensures Gate(c, e1, req) == Next ==> Gate(c, e2, req) == Next
  {
  }
}
