/** pkg/resolver/json_resolver.go: a resolver backed by a JSON file of routes, read once. */
module JsonResolvers {
  import opened Wrappers
  import opened RouteMaps

  /** The resolver keeps the path it was loaded from (for logging) and the decoded map. */
  datatype JsonResolver = JsonResolver(filepath: string, lookup: RouteMap)

  /** The backend routed to for `hostname`, and whether there is one. */
  function ResolveHostname(j: JsonResolver, hostname: string): (r: (string, bool))
    ensures r.1 <==> hostname in j.lookup
    ensures r.1 ==> r.0 == j.lookup[hostname]
    ensures !r.1 ==> r.0 == ""
  {
    Lookup(j.lookup, hostname)
  }

  /** `NewJsonResolver(filepath)`, given what opening and decoding that file gives. */
  function NewJsonResolver(filepath: string, file: MappingFile): (r: Result<JsonResolver, LoadError>)
    ensures r.Failure? <==> file.Unopenable? || file.decoded.None?
    ensures file.Unopenable? ==> r.error == OpenFailed
    ensures r.Success? ==> r.value.filepath == filepath && file == Opened(Some(r.value.lookup))
  {
    var m := LoadMapping(file);
    if m.Failure? then Failure(m.error) else Success(JsonResolver(filepath, m.value))
  }
}
