/** pkg/resolver/resolver.go: the `Resolver` interface the router asks for backends. Its two
    implementations are the file-backed `JsonResolver` and the polling `ApiResolver`; the
    interface becomes a datatype with one variant per implementation. */
module Resolvers {
  import opened RouteMaps
  import JsonResolvers
  import ApiResolvers

  datatype Resolver =
    | Json(json: JsonResolvers.JsonResolver)
    | Api(api: ApiResolvers.ApiResolver)

  /** The objects a resolver's answers depend on. */
  function Footprint(r: Resolver): set<object> {
    if r.Api? then {r.api} else {}
  }

  /** The routes the resolver currently answers from. */
  function Table(r: Resolver): RouteMap
    reads Footprint(r)
  {
    if r.Json? then r.json.lookup else r.api.routes
  }

  /** `ResolveHostname(hostname)`, dispatched to the implementation: every resolver answers
      with a plain lookup in its current routes. */
  function ResolveHostname(r: Resolver, hostname: string): (res: (string, bool))
    reads Footprint(r)
    ensures res.1 <==> hostname in Table(r)
    ensures res.1 ==> res.0 == Table(r)[hostname]
    ensures !res.1 ==> res.0 == ""
  {
    match r
    case Json(j) => JsonResolvers.ResolveHostname(j, hostname)
    case Api(a) => a.ResolveHostname(hostname)
  }
}
