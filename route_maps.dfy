/** The string-to-string route maps every Go resolver keeps, and the lookup they share: a Go
    map index `v, ok := m[k]`, which gives the zero value `""` and `false` for a missing key. */
module RouteMaps {
  import opened Wrappers

  type RouteMap = map<string, string>

  /** `m[key]` with its comma-ok flag. */
  function Lookup(m: RouteMap, key: string): (r: (string, bool))
    ensures r.1 <==> key in m
    ensures r.1 ==> r.0 == m[key]
    ensures !r.1 ==> r.0 == ""
  {
    if key in m then (m[key], true) else ("", false)
  }

  /** What opening and decoding a mapping file gives: `os.Open` failed, or the file was
      read and `json.Unmarshal` into a `map[string]string` either failed (`None`) or gave a
      map (a JSON `null` gives the nil map, which behaves as the empty one). */
  datatype MappingFile =
    | Unopenable
    | Opened(decoded: Option<RouteMap>)

  /** Why loading a mapping file failed: the error of `os.Open` or of `json.Unmarshal`. */
  datatype LoadError = OpenFailed | UnmarshalFailed

  /** The map a mapping file yields, or why it yields none. */
  function LoadMapping(file: MappingFile): (r: Result<RouteMap, LoadError>)
    ensures r.Failure? <==> file.Unopenable? || file.decoded.None?
    ensures file.Unopenable? ==> r.error == OpenFailed
    ensures r.Success? ==> file == Opened(Some(r.value))
  {
    match file
    case Unopenable => Failure(OpenFailed)
    case Opened(None) => Failure(UnmarshalFailed)
    case Opened(Some(m)) => Success(m)
  }
}
