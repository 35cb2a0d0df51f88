/** router/__main__.py: the Python router's proxy header, its lookup of a backend in the
    mapping the API serves, and the start of a proxied connection (read the handshake
    frame, resolve, connect, send the header and then the frame). */
module ProxyMain {
  import opened Wrappers
  import opened Streams
  import opened VarInt
  import opened Text
  import opened MinecraftProtocol
  import Routing

  // ---------------------------------------------------------------------------------------
  // The proxy header

  /** `create_proxy_protocol_header(src_addr, dst_addr)`: the f-string
      "PROXY TCP4 {src ip} {dst ip} {src port} {dst port}\r\n", encoded. */
  function CreateProxyProtocolHeader(src: (string, int), dst: (string, int)): seq<byte> {
    StrBytes("PROXY TCP4 " + src.0 + " " + dst.0 + " " + IntToString(src.1) + " " + IntToString(dst.1) + "\r\n")
  }

  /** The Python header and the Go header agree: for two "ip:port" addresses the Go router
      builds exactly the header the Python router builds from the (ip, port) pairs. */
  lemma HeaderAgreesWithGo(srcIP: string, srcPort: nat, dstIP: string, dstPort: nat)
    requires ':' !in srcIP && ':' !in dstIP && srcPort <= MaxUint16 && dstPort <= MaxUint16
    ensures Routing.CreateProxyProtocolHeader(srcIP + ":" + NatToString(srcPort),
                                              dstIP + ":" + NatToString(dstPort))
         == Success(CreateProxyProtocolHeader((srcIP, srcPort), (dstIP, dstPort)))
  {
    Routing.HeaderOfAddrs(srcIP, srcPort, dstIP, dstPort);
  }

  // ---------------------------------------------------------------------------------------
  // Resolving a server

  /** A JSON value as `httpx`'s `.json()` gives it (numbers are integers here). */
  datatype Json =
    | JNull
    | JBool(b: bool)
    | JNum(n: int)
    | JStr(s: string)
    | JArr(items: seq<Json>)
    | JObj(fields: map<string, Json>)

  /** Python truthiness: `None`, `False`, `0`, `""`, `[]` and `{}` are false. */
  predicate Truthy(j: Json) {
    match j
    case JNull => false
    case JBool(b) => b
    case JNum(n) => n != 0
    case JStr(s) => s != ""
    case JArr(items) => items != []
    case JObj(fields) => fields != map[]
  }

  /** `mappings.get(key)`: `None` for a missing key. */
  function Get(mappings: map<string, Json>, key: string): (j: Json)
    ensures key in mappings ==> j == mappings[key]
    ensures key !in mappings ==> j == JNull
  {
    if key in mappings then mappings[key] else JNull
  }

  /** The key tried first, `f"{servername}:{port}"`. */
  function FullKey(servername: string, port: int): string {
    servername + ":" + IntToString(port)
  }

  /** How `int(value)` fails: a string that is not a number (`ValueError`) or a value of a
      type `int` does not take (`TypeError`). */
  datatype IntError = NotANumber | NotConvertible

  /** `int(value)` on a JSON value: an integer is itself, a boolean is 1 or 0, a string is
      its decimal value with an optional sign. */
  function IntOf(j: Json): (r: Result<int, IntError>)
    ensures j.JNum? ==> r == Success(j.n)
    ensures j.JBool? ==> r == Success(if j.b then 1 else 0)
    ensures (j.JNull? || j.JArr? || j.JObj?) ==> r == Failure(NotConvertible)
    ensures j.JStr? && j.s != "" && AllDigits(j.s) ==> r == Success(DigitsValue(j.s))
    ensures j.JStr? && r.Success? ==> var digits := Unsigned(j.s);
              digits != "" && AllDigits(digits)
              && r.value == (if j.s[0] == '-' then -(DigitsValue(digits) as int) else DigitsValue(digits))
  {
    match j
    case JNum(n) => Success(n)
    case JBool(b) => Success(if b then 1 else 0)
    case JStr(s) =>
      var digits := Unsigned(s);
      if digits == "" || !AllDigits(digits) then Failure(NotANumber)
      else if s[0] == '-' then Success(-(DigitsValue(digits) as int))
      else Success(DigitsValue(digits))
    case _ => Failure(NotConvertible)
  }

  /** The digits of a decimal after its optional sign. */
  function Unsigned(s: string): (d: string)
    ensures |d| <= |s| && d == s[|s| - |d|..]
    ensures s != [] && (s[0] == '-' || s[0] == '+') ==> d == s[1..]
  {
    if s != [] && (s[0] == '-' || s[0] == '+') then s[1..] else s
  }

  /** Round trip: `int(f"{i}")` is `i`. */
  lemma IntOfIntToString(i: int)
    ensures IntOf(JStr(IntToString(i))) == Success(i)
  {
    if i < 0 {
      NatToStringDigits(-i);
      var s := IntToString(i);
      assert s[0] == '-' && s[1..] == NatToString(-i);
    } else {
      NatToStringDigits(i);
      assert IntToString(i)[0] != '-';
    }
  }

  /** Why `resolve_minecraft_server` raises: no mapping, an entry that is not an object
      (`TypeError`), a missing field (`KeyError`), or a port `int` refuses. */
  datatype ResolveError =
    | NoMapping(key: string)
    | NotSubscriptable
    | MissingKey(field: string)
    | BadPort(err: IntError)

  /** `resolved_mapping["address"], int(resolved_mapping["port"])`, in that order. */
  function EntryAddress(entry: Json): (r: Result<(Json, int), ResolveError>)
    ensures r.Success? <==>
              && entry.JObj? && "address" in entry.fields && "port" in entry.fields
              && IntOf(entry.fields["port"]).Success?
    ensures r.Success? ==>
              r.value == (entry.fields["address"], IntOf(entry.fields["port"]).value)
    ensures !entry.JObj? ==> r == Failure(NotSubscriptable)
    ensures entry.JObj? && "address" !in entry.fields ==> r == Failure(MissingKey("address"))
  {
    if !entry.JObj? then Failure(NotSubscriptable)
    else if "address" !in entry.fields then Failure(MissingKey("address"))
    else if "port" !in entry.fields then Failure(MissingKey("port"))
    else
      var p := IntOf(entry.fields["port"]);
      if p.Failure? then Failure(BadPort(p.error)) else Success((entry.fields["address"], p.value))
  }

  /** `resolve_minecraft_server(servername, port)` over the fetched `mappings`: the full key
      is tried first and the bare server name only when the full key's entry is missing or
      false; with nothing (or `None`) found it raises, and otherwise it reads the address and
      the port of the chosen entry. */
  function ResolveMinecraftServer(mappings: map<string, Json>, servername: string, port: int)
    : (r: Result<(Json, int), ResolveError>)
    ensures var key := FullKey(servername, port);
      r == Failure(NoMapping(key)) <==>
        (key !in mappings || !Truthy(mappings[key]))
        && (servername !in mappings || mappings[servername] == JNull)
    ensures var key := FullKey(servername, port);
      key in mappings && Truthy(mappings[key]) ==> r == EntryAddress(mappings[key])
    ensures var key := FullKey(servername, port);
      ((key !in mappings || !Truthy(mappings[key])) && servername in mappings
       && mappings[servername] != JNull) ==> r == EntryAddress(mappings[servername])
  {
    var key := FullKey(servername, port);
    var first := Get(mappings, key);
    var resolved := if Truthy(first) then first else Get(mappings, servername);
    if resolved.JNull? then Failure(NoMapping(key)) else EntryAddress(resolved)
  }

  /** The entry the API serves for a backend at `address:port`. */
  function Entry(address: string, port: int): Json {
    JObj(map["address" := JStr(address), "port" := JNum(port)])
  }

  /** A backend mapped under the full key resolves to its address and port, whatever the
      bare name maps to. */
  lemma ResolveFullKey(mappings: map<string, Json>, servername: string, port: int,
                       address: string, backendPort: int)
    requires FullKey(servername, port) in mappings
    requires mappings[FullKey(servername, port)] == Entry(address, backendPort)
    ensures ResolveMinecraftServer(mappings, servername, port) == Success((JStr(address), backendPort))
  {
    var e := Entry(address, backendPort);
    assert "address" in e.fields && "port" in e.fields;
    assert Truthy(e);
  }

  /** A backend mapped under the bare name is the fallback when the full key is missing. */
  lemma ResolveBareName(mappings: map<string, Json>, servername: string, port: int,
                        address: string, backendPort: int)
    requires FullKey(servername, port) !in mappings
    requires servername in mappings && mappings[servername] == Entry(address, backendPort)
    ensures ResolveMinecraftServer(mappings, servername, port) == Success((JStr(address), backendPort))
  {
    var e := Entry(address, backendPort);
    assert "address" in e.fields && "port" in e.fields;
  }

  /** A full-key entry that is false, such as an empty object, is passed over as though it
      were missing. */
  lemma ResolveSkipsFalsyEntry(mappings: map<string, Json>, servername: string, port: int)
    requires FullKey(servername, port) in mappings && !Truthy(mappings[FullKey(servername, port)])
    ensures ResolveMinecraftServer(mappings, servername, port)
         == ResolveMinecraftServer(mappings - {FullKey(servername, port)}, servername, port)
  {
    var key := FullKey(servername, port);
    var m' := mappings - {key};
    assert |key| > |servername|;
    if servername in mappings {
      assert m'[servername] == mappings[servername];
    }
  }

  // ---------------------------------------------------------------------------------------
  // Setting up a proxied connection

  /** Why `ProxyConnection.setup` raises. */
  datatype SetupError =
    | FrameFailed(frame: FrameError)
    | ResolveFailed(resolve: ResolveError)
    | ConnectFailed

  /** `ProxyConnection.setup`: the client socket delivers `incoming`, `peer` is
      `getpeername()`, `connectOk` whether `connect` to the resolved backend succeeds. The
      result is what is sent to the backend, in order. */
  function SetupSpec(mappings: map<string, Json>, incoming: seq<byte>, peer: (string, int),
                     connectOk: bool): (r: Result<seq<seq<byte>>, SetupError>)
    ensures r.Success? ==> |r.value| == 2 && ReadConnectionFrameSpec(incoming).result.Success?
                           && r.value[1] == ReadConnectionFrameSpec(incoming).result.value.1
    ensures ReadConnectionFrameSpec(incoming).result.Failure? ==>
              r == Failure(FrameFailed(ReadConnectionFrameSpec(incoming).result.error))
    ensures var read := ReadConnectionFrameSpec(incoming);
      read.result.Success? ==>
        var frame := read.result.value.0;
        var res := ResolveMinecraftServer(mappings, BytesToString(frame.serverAddress), frame.port);
        && (res.Failure? ==> r == Failure(ResolveFailed(res.error)))
        && (res.Success? && (!res.value.0.JStr? || !connectOk) ==> r == Failure(ConnectFailed))
        && (r.Success? <==> res.Success? && res.value.0.JStr? && connectOk)
        && (r.Success? ==> r.value[0] == CreateProxyProtocolHeader(peer, (res.value.0.s, res.value.1)))
  {
    var read := ReadConnectionFrameSpec(incoming);
    if read.result.Failure? then Failure(FrameFailed(read.result.error))
    else
      var (frame, raw) := read.result.value;
      var resolved := ResolveMinecraftServer(mappings, BytesToString(frame.serverAddress), frame.port);
      if resolved.Failure? then Failure(ResolveFailed(resolved.error))
      else if !resolved.value.0.JStr? || !connectOk then Failure(ConnectFailed)
      else
        var header := CreateProxyProtocolHeader(peer, (resolved.value.0.s, resolved.value.1));
        Success([header, raw])
  }

  /** A client whose handshake frame names a mapped backend gets the header naming it and
      its own address sent first, then exactly the frame's bytes. */
  lemma SetupOfFrame(mappings: map<string, Json>, size: nat, protocol: nat, address: seq<byte>,
                     port: nat, next: nat, tail: seq<byte>, peer: (string, int),
                     backend: string, backendPort: int)
    requires port < 65536
    requires size < Pow2(35) && protocol < Pow2(35) && |address| < Pow2(35) && next < Pow2(35)
    requires FullKey(BytesToString(address), port) in mappings
    requires mappings[FullKey(BytesToString(address), port)] == Entry(backend, backendPort)
    ensures var f := FrameBytes(size, protocol, address, port, next);
      SetupSpec(mappings, f + tail, peer, true)
        == Success([CreateProxyProtocolHeader(peer, (backend, backendPort)), f])
  {
    ReadConnectionFrameOfBytes(size, protocol, address, port, next, tail);
    ResolveFullKey(mappings, BytesToString(address), port, backend, backendPort);
  }
}
