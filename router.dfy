/**
 * How an Express router picks the handler for a request: the routes are
 * tried in the order they were registered and the first whose method and
 * path pattern match wins. A literal segment matches regardless of the case
 * of ASCII letters; a `:param` segment matches any non-empty segment. Paths
 * are given as their segments below the router's mount point.
 */
module Router {
  import opened Wrappers
  import Text

  datatype Verb = Get | Post | Put | Delete

  datatype Segment = Literal(text: string) | Param

  datatype Route<E> = Route(verb: Verb, pattern: seq<Segment>, endpoint: E)

  predicate SegmentMatches(pattern: Segment, segment: string) {
    match pattern
    case Literal(text) => Text.EqualsIgnoringAsciiCase(text, segment)
    case Param => segment != ""
  }

  predicate Matches<E>(route: Route<E>, verb: Verb, path: seq<string>) {
    && route.verb == verb
    && |route.pattern| == |path|
    && forall i :: 0 <= i < |path| ==> SegmentMatches(route.pattern[i], path[i])
  }

  /** The index of the first route that matches, if any. */
  function FirstMatch<E>(routes: seq<Route<E>>, verb: Verb, path: seq<string>): (r: Option<nat>)
    ensures r.Some? ==> r.value < |routes| && Matches(routes[r.value], verb, path)
    ensures r.Some? ==> forall j :: 0 <= j < r.value ==> !Matches(routes[j], verb, path)
    ensures r.None? ==> forall j :: 0 <= j < |routes| ==> !Matches(routes[j], verb, path)
  {
    if routes == [] then None
    else if Matches(routes[0], verb, path) then Some(0)
    else
      match FirstMatch(routes[1..], verb, path)
      case None => None
      case Some(k) => Some(k + 1)
  }
}
