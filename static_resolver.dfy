/** pkg/resolver.go: the older file-backed resolver of package `pkg`, an unlabelled map. */
module StaticResolvers {
  import opened Wrappers
  import opened RouteMaps

  datatype Resolver = Resolver(lookup: RouteMap)

  /** The backend routed to for `hostname`, and whether there is one. */
  function ResolveHostname(res: Resolver, hostname: string): (r: (string, bool))
    ensures r.1 <==> hostname in res.lookup
    ensures r.1 ==> r.0 == res.lookup[hostname]
    ensures !r.1 ==> r.0 == ""
  {
    Lookup(res.lookup, hostname)
  }

  /** `NewResolver(filename)`, given what opening and decoding that file gives. */
  function NewResolver(file: MappingFile): (r: Result<Resolver, LoadError>)
    ensures r.Failure? <==> file.Unopenable? || file.decoded.None?
    ensures file.Unopenable? ==> r.error == OpenFailed
    ensures r.Success? ==> file == Opened(Some(r.value.lookup))
  {
    var m := LoadMapping(file);
    if m.Failure? then Failure(m.error) else Success(Resolver(m.value))
  }
}
