# minecraftrouter, modelled in Dafny

minecraftrouter is a reverse proxy for Minecraft servers. A client opens a TCP connection and
sends a handshake that names the server it wants (hostname and port). The router decodes
that handshake and asks a resolver for the backend mapped to `"hostname:port"`. It dials the
backend and writes a PROXY protocol v1 header, so the backend learns the client's real
address. Then it forwards the handshake bytes and relays the connection.

This project models:

- The Go router (`pkg/router.go`): `SplitAddr`, `CreateProxyProtocolHeader`, the body of the
  accept loop of `Run` (read, inline uvarint decode, resolve, dial, header, writes) and
  `NewRouter`.
- The Go resolvers:
  - `JsonResolver` and `NewJsonResolver`.
  - The older `pkg.Resolver`.
  - The `Resolver` interface.
  - `ApiResolver`: `login`, `fetchMapping`, `refresh`, `poll`, `retryRefresh`,
    `ResolveHostname` and `NewApiResolver`.
- The Go `MinecraftPacketReader` (`readVarInt`, `ReadPacket`).
- The Python router: `read_varint` and `read_connection_frame`, plus the header formatter,
  the backend lookup and the connection setup of `router/__main__.py`.

Modules follow the source files:

| module | file | models |
|---|---|---|
| `Streams` | `streams.dfy` | bytes, Go's `make([]byte, n)`, `bytes.Reader` and a socket as a `ByteStream` class with a cursor |
| `VarInt` | `varint.dfy` | 7-bit groups, their value, the shortest encoding, a bounded scan |
| `Uvarint` | `uvarint.dfy` | Go's `binary.ReadUvarint` |
| `Text` | `text.dfy` | decimal formatting, `strconv.ParseUint(s, 10, 16)`, byte/char conversion |
| `RouteMaps` | `route_maps.dfy` | the `map[string]string` lookup and loading a mapping file |
| `JsonResolvers`, `StaticResolvers`, `ApiResolvers`, `Resolvers` | `json_resolver.dfy`, `static_resolver.dfy`, `api_resolver.dfy`, `resolvers.dfy` | the resolvers |
| `MinecraftReader` | `minecraft_reader.dfy` | `pkg/reader/minecraft_reader.go` |
| `MinecraftProtocol` | `minecraft_protocol.dfy` | `router/minecraft_protocol.py` |
| `Routing` | `router.dfy` | `pkg/router.go` |
| `ProxyMain` | `proxy_main.dfy` | `router/__main__.py` |

Each loop or stateful operation is a method proved equal to a specification function.

- `ReadUvarint`, `readVarInt` and `read_varint` read a `ByteStream` byte by byte.
- `ApiResolver` is a class whose `routes` and `token` fields its methods update.
- The HTTP client is a class holding the scripted replies and the log of sent requests.
- The context is a class holding what each wait on a timer yields: the timer fired, or the
  context was cancelled.
- `retryRefresh` and `poll` are specified for any refresh, passed as a function value
  `State -> Step`. `Refresher(c)` is the resolver's own refresh, `RefreshSpec`. The retry
  and poll lemmas therefore hold whatever a single refresh does. The facts they need about `RefreshSpec` are the
  predicates `KeepsRoutesOnFailure` and `SendsOneToThree`.
- The specification functions carry the properties as their own `ensures` or in lemmas:
  - round trips from a well-formed encoding back to the values;
  - the exact error conditions;
  - the last-known-good cache;
  - re-authentication only on 401;
  - the bounded retries before the fatal exit;
  - stopping at the first error of the accept loop.

The environment becomes parameters:

- A `Conn` value holds the result of the client's first read, its address, how the dial
  went and whether each write succeeded.
- A sequence of `Accept` results stands for what `listener.Accept` returns.
- `urlParses` is what `url.Parse` decides.
- A `MappingFile` value is what opening and decoding a JSON file gives.

Behaviours of the code worth stating outright:

- The Go router strips no hostname suffixes, although some Minecraft clients append `"///…"`
  or NUL suffixes to the server address: the key is the raw address bytes.
- The buffer of `Run` is the bytes read, zero-padded to 1024, and all 1024 bytes are written
  to the backend (pkg/router.go:63-64, 123). They are not exactly the bytes of the frame.
- A truncated address or port is not a decode failure in Go. `bytes.Reader.Read` fails only
  on an empty reader, and the short read is zero-padded (pkg/router.go:86-98); inside the
  zero-padded buffer, a frame cut short reads zeros.
- Every error of the loop, decode errors included, makes `Run` return (pkg/router.go:59-126).
  Only a resolution miss closes just the one client and goes on.
- The Go `ReadUvarint` calls accept 64-bit varints of up to ten bytes, not five. The error of
  the fourth call is ignored, so its partial value is used (pkg/router.go:85).

Some source code is split into named helpers so that the proofs stay small:

- `Routing.ReadServerAddress` is the tail of the inline decode.
- `Routing.Forward` is the part of the loop body after the key is known.
- `MinecraftProtocol.ReadVersionAndRest`, `ReadAddressAndRest` and `FinishRead` are successive
  tails of `read_connection_frame`.

## Model

| member | source | states |
|---|---|---|
| Streams.Zeros | pkg/router.go:86 | `make([]byte, n)` holds `n` zero bytes |
| Streams.PortBytes | router/minecraft_protocol.py:54 | two bytes whose big-endian value is the port, the layout `struct.unpack(">H")` and `binary.BigEndian.Uint16` read |
| Streams.ByteStream.constructor | pkg/router.go:69 | a fresh reader over the bytes, at position 0 |
| Streams.ByteStream.ReadByte | pkg/router.go:72-85 | end of stream exactly when nothing remains; otherwise the next byte, and the cursor moves by one |
| Streams.ByteStream.Read | pkg/router.go:87-97 | end of stream exactly when nothing remains, even for an empty buffer; otherwise the next `min(n, remaining)` bytes, and the cursor moves past them |
| VarInt.ValueAppend | pkg/reader/minecraft_reader.go:27-28 | one more group adds its seven bits shifted by seven per earlier group |
| VarInt.ValueBound | pkg/reader/minecraft_reader.go:21-31 | `n` groups hold a value below 2^(7n) |
| VarInt.TerminatorIndexMeaning | pkg/reader/minecraft_reader.go:29-31 | every byte before the terminator continues, and the terminator does not |
| VarInt.ScanVarIntMeaning | pkg/reader/minecraft_reader.go:21-34 | a bounded scan ends complete at the first terminator within the limit, truncated when the input runs dry first, or overlong after `limit` continuation bytes; each case is characterised by the bytes read |
| VarInt.EncodeDecodes | router/minecraft_protocol.py:14-28 | an encoding stops at its last byte, whatever follows, and its value is the encoded number |
| VarInt.EncodeLength | router/minecraft_protocol.py:25-26 | an encoding fits in `k` bytes exactly when the value is below 2^(7k) |
| VarInt.ScanEncoded | pkg/reader/minecraft_reader.go:21-34 | round trip: a value below 2^(7·limit) is scanned back with exactly its encoding |
| Uvarint.UvarintSpec | pkg/router.go:72-85 | a read takes at most ten bytes and no more than the reader holds |
| Uvarint.UvarintMeaning | pkg/router.go:72-85 | success exactly when a terminator comes within ten bytes, the tenth at most 1; the value is that of the bytes consumed; `Eof` exactly on an empty reader, `UnexpectedEof` exactly when the reader ends inside the varint, `Overflow` exactly on ten continuation bytes or a tenth byte above 1 |
| Uvarint.UvarintFits | pkg/router.go:85 | an error-free value fits in 64 bits |
| Uvarint.UvarintOfEncode | pkg/router.go:72-85 | round trip: a value below 2^63 is read back from its encoding, whatever follows |
| Uvarint.ReadUvarint | pkg/router.go:72-85 | the loop of `binary.ReadUvarint` returns the value and error of the specification, the partial value included, and consumes exactly the bytes it used |
| Text.DigitChar | pkg/router.go:39 | a decimal digit character with the given value |
| Text.NatToStringDigits | pkg/router.go:39 | `%d` of `n` is a non-empty run of digits whose value is `n` |
| Text.DigitsValueAppend | pkg/router.go:16 | one more digit multiplies the value so far by ten and adds the digit |
| Text.ParseDigitsMeaning | pkg/router.go:16 | the digit-by-digit parse succeeds exactly on digits whose value stays within 16 bits, and then returns that value |
| Text.ParseUint16 | pkg/router.go:16 | defines `strconv.ParseUint(s, 10, 16)` as a digit-by-digit parse; its contract is stated by `Text.ParseUint16Meaning` |
| Text.ParseUint16Meaning | pkg/router.go:16 | `strconv.ParseUint(s, 10, 16)` succeeds exactly on a non-empty decimal of at most 65535, and returns its value |
| Text.ParseUint16OfNatToString | pkg/router.go:16 | round trip: the decimal of a 16-bit number parses back to it |
| Text.IndexOf | pkg/router.go:14 | the first occurrence of a character, or the length when there is none |
| Text.StrBytes | pkg/router.go:40 | `[]byte(s)` of a byte-valued string keeps its length |
| Text.BytesToString | pkg/router.go:91 | `string(b)` converts back to the same bytes |
| RouteMaps.Lookup | pkg/resolver/json_resolver.go:15-18 | `v, ok := m[k]`: `ok` exactly when the key is present, `v` its value, `""` when absent |
| RouteMaps.LoadMapping | pkg/resolver/json_resolver.go:24-37 | loading fails exactly when the file does not open or does not decode, an open error first; on success the map is the decoded one |
| JsonResolvers.ResolveHostname | pkg/resolver/json_resolver.go:15-18 | the backend for the hostname is the file's entry, found exactly when present |
| JsonResolvers.NewJsonResolver | pkg/resolver/json_resolver.go:24-43 | fails exactly when the file does not open or decode; a resolver keeps the path and the decoded map |
| StaticResolvers.ResolveHostname | pkg/resolver.go:13-16 | the backend for the hostname is the file's entry, found exactly when present |
| StaticResolvers.NewResolver | pkg/resolver.go:18-36 | fails exactly when the file does not open or decode; a resolver keeps the decoded map |
| Resolvers.ResolveHostname | pkg/resolver/resolver.go:5-9 | every implementation answers with a plain lookup in its current routes |
| ApiResolvers.LoginSpec | pkg/resolver/api_resolver.go:36-75 | one POST to `baseURL/service/login` with the credentials; the routes are untouched; success exactly on a 200 whose body decodes, and only then the token is replaced; every error is a login error |
| ApiResolvers.FetchSpec | pkg/resolver/api_resolver.go:77-111 | one GET to `baseURL/service/mapping` with `Bearer <token>`; the token is untouched; success exactly on a 200 whose body decodes, and only then the routes are replaced; `errUnauthorized` exactly on a 401 |
| ApiResolvers.RefreshSpec | pkg/resolver/api_resolver.go:113-127 | a failed refresh keeps the routes it started with; a refresh sends one to three requests and only appends to the log |
| ApiResolvers.RefreshReauthenticatesOnlyOn401 | pkg/resolver/api_resolver.go:113-127 | the first request is the mapping GET with the current token; a login follows exactly when that GET is answered 401, and carries the credentials; a failed login ends the refresh with `ReauthFailed` of its error after exactly two requests; a third request, the GET with the new token, is sent exactly when the login succeeds, and the refresh is then that GET; without a 401 the refresh is the first GET |
| ApiResolvers.RefreshSuccessRoutes | pkg/resolver/api_resolver.go:113-127 | a successful refresh carries the routes of the reply to its last request, a mapping GET answered 200: the first reply, or the third after a 401 and a login |
| ApiResolvers.RetryBounds | pkg/resolver/api_resolver.go:146-171 | the retries of `RetrySpec` from attempt `a` end at an attempt between `a - 1` and 10; they end cancelled only at a cancelled context and exhausted only at attempt 10; they consume no more wakes than given |
| ApiResolvers.FailedRefreshes | pkg/resolver/api_resolver.go:154-165 | defines the state left by `n` refreshes in a row that all fail; it has no contract of its own and is the reference for the retry lemmas |
| ApiResolvers.AllElapsed | pkg/resolver/api_resolver.go:147-152 | defines "the first `n` waits all see the timer fire"; it has no contract of its own and is the reference for the retry lemmas |
| ApiResolvers.RetryKeepsRoutes | pkg/resolver/api_resolver.go:146-171 | for a refresh that keeps the routes when it fails, as `RefreshSpec` does (`RefresherKeepsRoutesOnFailure`), retries that do not recover leave the last-known-good routes |
| ApiResolvers.RetrySendsAtMostThreePerAttempt | pkg/resolver/api_resolver.go:146-171 | for a refresh that sends one to three requests, as `RefreshSpec` does, the retries send at most three per attempt and only append |
| ApiResolvers.RetryExhaustedNeedsAllWakes | pkg/resolver/api_resolver.go:146-171 | both directions: the fatal exit comes exactly when the timer fires before each remaining attempt and all their refreshes fail; it then leaves the state of those failed refreshes and consumes exactly those wakes |
| ApiResolvers.RetryCancelledSendsNothing | pkg/resolver/api_resolver.go:146-152 | a cancelled context before the first attempt ends the retries with the state untouched; a cancelled end after `j` attempts consumed exactly `j` timer wakes |
| ApiResolvers.RetryCancelledAfterFailures | pkg/resolver/api_resolver.go:146-171 | a cancelled end after `j` attempts follows `j` failed refreshes and leaves exactly their state |
| ApiResolvers.RetryStopsAtFirstSuccess | pkg/resolver/api_resolver.go:146-169 | a recovery at the `j`-th attempt consumed exactly `j` timer wakes, one per attempt, and nothing more (`RecoveredAfterWakes`) |
| ApiResolvers.RetryRecoversAtFirstSuccess | pkg/resolver/api_resolver.go:146-169 | a recovery comes right after the earlier attempts' refreshes all failed, at the first refresh that succeeds, and leaves that refresh's state (whose routes are those of its 200 reply, by `RefreshSuccessRoutes`) |
| ApiResolvers.PollSpec | pkg/resolver/api_resolver.go:129-144 | polling only consumes wakes, and when it does not exit it stops at a cancelled context; what an exit means is stated in `PollExitNeedsExhaustedRetry` |
| ApiResolvers.PollExitNeedsExhaustedRetry | pkg/resolver/api_resolver.go:129-144 | for any refresh (the resolver's is `Refresher(c)`), a cancelled context stops the polling with the state untouched; an exit is the end of a retry that ran out after a failed refresh (`ExitsAfterExhaustedRetry`), and leaves that retry's state and remaining wakes; it comes only after at least one timer wake for the failed refresh and one for each of the ten attempts |
| ApiResolvers.NewSpec | pkg/resolver/api_resolver.go:200-206 | the first request is the login; a failed login is returned as `InitialAuthFailed` of its error with nothing more sent; otherwise the result fails exactly when the refresh after the login fails, as `InitialFetchFailed`, and a success leaves that refresh's state; a failure keeps the empty routes |
| ApiResolvers.TrimRightSlash | pkg/resolver/api_resolver.go:188 | `strings.TrimRight(s, "/")` is the longest prefix not ending in '/', and only slashes are removed |
| ApiResolvers.HttpClient.constructor | pkg/resolver/api_resolver.go:195-197 | a client with its reply script and nothing sent yet |
| ApiResolvers.HttpClient.Do | pkg/resolver/api_resolver.go:51 | answers with the next scripted reply, or a transport error once the script is spent, and logs the request |
| ApiResolvers.Context.constructor | pkg/resolver/api_resolver.go:184 | a context with its wake script |
| ApiResolvers.Context.Wait | pkg/resolver/api_resolver.go:134-137 | the next wake; cancellation is sticky |
| ApiResolvers.ApiResolver.constructor | pkg/resolver/api_resolver.go:190-198 | the resolver literal: the settings, empty routes, no token |
| ApiResolvers.ApiResolver.ResolveHostname | pkg/resolver/api_resolver.go:173-178 | a lookup in the current routes |
| ApiResolvers.ApiResolver.Login | pkg/resolver/api_resolver.go:36-75 | the new state and the error are those of `LoginSpec` |
| ApiResolvers.ApiResolver.FetchMapping | pkg/resolver/api_resolver.go:77-111 | the new state and the error are those of `FetchSpec` |
| ApiResolvers.ApiResolver.Refresh | pkg/resolver/api_resolver.go:113-127 | the new state and the error are those of `RefreshSpec` |
| ApiResolvers.ApiResolver.RetryRefresh | pkg/resolver/api_resolver.go:146-171 | the outcome, the new state and the remaining wakes are those of `RetrySpec` from attempt 1 |
| ApiResolvers.ApiResolver.Poll | pkg/resolver/api_resolver.go:129-144 | whether the process exits, the new state and the remaining wakes are those of `PollSpec` |
| ApiResolvers.NewApiResolver | pkg/resolver/api_resolver.go:184-211 | a URL that does not parse is refused with nothing sent; otherwise the result, the client's log and the new resolver's state are those of `NewSpec` on the trimmed URL and empty routes |
| MinecraftReader.ReadVarIntSpec | pkg/reader/minecraft_reader.go:17-35 | a read takes at most five bytes and no more than the source holds |
| MinecraftReader.ReadVarIntMeaning | pkg/reader/minecraft_reader.go:17-35 | `(value, bytes)` of exactly the bytes up to the first terminator within five; `(0, nil)` exactly when the source runs dry first; `(-1, nil)` exactly after five continuation bytes |
| MinecraftReader.ReadVarIntOfEncode | pkg/reader/minecraft_reader.go:17-35 | round trip: a value below 2^35 is read back with its encoding |
| MinecraftReader.ReadPacketSpec | pkg/reader/minecraft_reader.go:37-55 | a packet read consumes no more than the source holds |
| MinecraftReader.ReadPacketOutcomes | pkg/reader/minecraft_reader.go:37-55 | fails exactly when the length varint fails, the payload read hits end of stream, or fewer than `length` bytes remain; otherwise returns the prefix and exactly `length` payload bytes, which is everything consumed |
| MinecraftReader.ReadPacketOfFramed | pkg/reader/minecraft_reader.go:37-55 | round trip: a length-framed packet is read back whole, except an empty packet at the very end of the source |
| MinecraftReader.MinecraftPacketReader.constructor | pkg/reader/minecraft_reader.go:57-61 | `NewMinecraftReader` wraps the given source |
| MinecraftReader.MinecraftPacketReader.ReadVarInt | pkg/reader/minecraft_reader.go:17-35 | the loop returns the specification's value and bytes, and advances the source by exactly the bytes read |
| MinecraftReader.MinecraftPacketReader.ReadPacket | pkg/reader/minecraft_reader.go:37-55 | returns the specification's result and advances the source by exactly what it read |
| MinecraftProtocol.ReadVarIntSpec | router/minecraft_protocol.py:9-28 | a successful read returns exactly the bytes consumed, at most five |
| MinecraftProtocol.ReadVarIntMeaning | router/minecraft_protocol.py:9-28 | stops at the first terminator with the value of the bytes up to it; raises when the socket runs dry first, or after five continuation bytes |
| MinecraftProtocol.ReadVarIntOfEncode | router/minecraft_protocol.py:9-28 | round trip: a value below 2^35 is read back with exactly its encoding |
| MinecraftProtocol.ReadVarInt | router/minecraft_protocol.py:9-28 | the loop returns the specification's result and consumes exactly its bytes |
| MinecraftProtocol.Recv | router/minecraft_protocol.py:48-50 | `recv(n)` gives the next `min(n, available)` bytes |
| MinecraftProtocol.NextField | router/minecraft_protocol.py:39-47 | the varint fields come in a fixed order that ends at the address size |
| MinecraftProtocol.ReadConnectionFrameSpec | router/minecraft_protocol.py:38-54 | a frame read uses no more than the socket delivers |
| MinecraftProtocol.ReadFromRaw | router/minecraft_protocol.py:39-52 | from any field on, the raw bytes returned are the bytes consumed |
| MinecraftProtocol.ReadConnectionFrameRaw | router/minecraft_protocol.py:38-54 | the raw packet is exactly the bytes consumed from the socket, in order, and the port is below 65536 |
| MinecraftProtocol.NotConnectionFrameRefused | router/minecraft_protocol.py:42-43 | a nonzero packet id is refused as not a connection frame |
| MinecraftProtocol.FinishFrame | router/minecraft_protocol.py:48-54 | the end of the frame consumes the address, the port and the next-state varint |
| MinecraftProtocol.AddressAndRestOfBytes | router/minecraft_protocol.py:48-54 | the address, the port and the next state are read back from their bytes |
| MinecraftProtocol.AddressFieldOfBytes | router/minecraft_protocol.py:47-54 | from the address size on, a frame's bytes are read back as its address and port, with exactly those bytes |
| MinecraftProtocol.VersionFieldOfBytes | router/minecraft_protocol.py:45-54 | from the protocol version on, a frame's bytes are read back as its fields, with exactly those bytes |
| MinecraftProtocol.PacketIdFieldOfBytes | router/minecraft_protocol.py:40-54 | from the packet id (0) on, a frame's bytes are read back as its fields, with exactly those bytes |
| MinecraftProtocol.ReadConnectionFrameOfBytes | router/minecraft_protocol.py:38-54 | round trip: a well-formed frame, whatever follows it, is read back as its protocol version, address and port, with exactly its bytes |
| MinecraftProtocol.ReadConnectionFrame | router/minecraft_protocol.py:38-54 | the method reads the specification's frame and raw bytes, and consumes exactly them |
| MinecraftProtocol.ReadVersionAndRest | router/minecraft_protocol.py:45-54 | from the protocol version on, the method reads the specification's frame and raw bytes, and consumes exactly them |
| MinecraftProtocol.ReadAddressAndRest | router/minecraft_protocol.py:48-54 | the address, port and next-state reads give the specification's frame and consume exactly its bytes |
| MinecraftProtocol.FinishRead | router/minecraft_protocol.py:51-54 | the next-state read and the port's unpacking give the specification's end of the frame, consuming exactly the varint's bytes |
| Routing.SplitAddr | pkg/router.go:13-23 | defines `SplitAddr`: the text before the first ':' and the parsed field after it; its contract is stated by `Routing.SplitAddrMeaning` |
| Routing.SplitAddrMeaning | pkg/router.go:13-23 | fails for want of a port field exactly when there is no ':'; otherwise succeeds exactly when the field after the first ':' is a decimal of at most 65535, returning the text before the ':' and that value |
| Routing.SplitAddrOfJoin | pkg/router.go:13-23 | round trip: `ip + ":" + port` splits back into the ip and the port |
| Routing.CreateProxyProtocolHeader | pkg/router.go:28-41 | fails exactly when either address fails to split, reporting the source's error first |
| Routing.HeaderOfAddrs | pkg/router.go:28-41 | for two `ip:port` addresses the header is `PROXY TCP4 <src ip> <dst ip> <src port> <dst port>\r\n` |
| Routing.FillBuffer | pkg/router.go:63-64 | the 1024-byte buffer starts with the bytes read and is zero after them |
| Routing.SkipUvarints | pkg/router.go:72-83 | the three checked uvarints leave a suffix of the packet |
| Routing.AddressAndPort | pkg/router.go:85-98 | the address has the length the uvarint gave, the port is 16-bit, and the only failures are the two end-of-stream reads |
| Routing.ReadAddressAndPort | pkg/router.go:86-98 | the address read into a buffer of the given size and a 16-bit port; only an empty reader fails |
| Routing.DecodeSpec | pkg/router.go:69-98 | defines the inline decode: three checked uvarints, the address length, the address and the port; its round trip is `Routing.DecodeOfHandshake` |
| Routing.DecodeOfHandshake | pkg/router.go:69-98 | round trip: the inline decode reads back the address and the port of a well-formed handshake, whatever follows it |
| Routing.DecodeHandshake | pkg/router.go:69-98 | the five reader calls compute the decode specification |
| Routing.ReadServerAddress | pkg/router.go:86-98 | the address and port reads compute `ReadAddressAndPort` on the remaining bytes |
| Routing.RoutingKey | pkg/router.go:100 | defines the key `address:port` of a decoded handshake; its property is `Routing.RoutingKeySplits` |
| Routing.RoutingKeySplits | pkg/router.go:100 | the key `address:port` splits back into its address and port |
| Routing.Forward | pkg/router.go:100-127 | misses exactly for a key the table lacks, and then nothing is dialled or written; a dialled backend is the table's entry; the writes are a prefix of header then buffer; proxied exactly when dial, header and both writes succeed |
| Routing.HandleSpec | pkg/router.go:63-127 | defines one pass of the loop body; its properties are `Routing.HandleOutcomes` and `Routing.HandleOfHandshake` |
| Routing.HandleOutcomes | pkg/router.go:63-127 | a failed read or decode ends the loop before any lookup; a client that reaches the resolver is keyed by its decoded handshake; a proxied backend receives the whole buffer, which starts with what the client sent |
| Routing.DecodeOfFilled | pkg/router.go:63-98 | a handshake that fits in the 1024-byte buffer still decodes to its address and port after the zero padding |
| Routing.HandleOfHandshake | pkg/router.go:63-127 | a well-formed handshake whose key is mapped is proxied to the mapped backend, with the header naming the client and the backend followed by the buffer |
| Routing.HandleConnection | pkg/router.go:63-127 | one pass of the loop body computes the outcome that the specification gives for the resolver's routes |
| Routing.Events | pkg/router.go:57-62 | one event per accept: a refused accept, or the handled client's outcome |
| Routing.RunOver | pkg/router.go:57-129 | the loop records at most one outcome per accept |
| Routing.RunOverStopsAtFirstError | pkg/router.go:57-129 | only the last handled client can have failed, and it failed exactly when the loop stopped for another reason than `Accept`; the loop runs through every client when none fails |
| Routing.RunSpec | pkg/router.go:48-130 | defines `Run`: a failed listen, or the loop over the accepts; its property is `Routing.RunStopsAtFirstError` |
| Routing.RunStopsAtFirstError | pkg/router.go:48-129 | the same, stated on the accepts and the outcome of each handled client |
| Routing.NewRouter | pkg/router.go:132-137 | the router keeps the resolver and the address |
| Routing.Run | pkg/router.go:48-130 | a failed listen returns at once; otherwise the loop computes the stop reason and the outcomes of the specification |
| ProxyMain.CreateProxyProtocolHeader | router/__main__.py:13-14 | defines the Python header from two (ip, port) pairs; its property is `ProxyMain.HeaderAgreesWithGo` |
| ProxyMain.HeaderAgreesWithGo | router/__main__.py:13-14 | the Python header from two (ip, port) pairs is the header the Go router builds from `ip:port` strings |
| ProxyMain.Get | router/__main__.py:21 | `dict.get` gives the entry, or `None` for a missing key |
| ProxyMain.IntOf | router/__main__.py:26 | `int()` of an integer is itself, of a boolean 1 or 0, of a string its signed decimal value; `None`, lists and objects are refused |
| ProxyMain.Unsigned | router/__main__.py:26 | the digits after an optional sign are a suffix of the string |
| ProxyMain.IntOfIntToString | router/__main__.py:26 | round trip: `int(f"{i}")` is `i` |
| ProxyMain.EntryAddress | router/__main__.py:26 | succeeds exactly on an object with an `address` and a convertible `port`, returning the address and the port's value; a non-object raises `TypeError`, and a missing `address` raises `KeyError` |
| ProxyMain.ResolveMinecraftServer | router/__main__.py:17-26 | raises for want of a mapping exactly when the full key is missing or false and the bare name is missing or `None`; a true full-key entry is used; otherwise the bare name's entry is |
| ProxyMain.ResolveFullKey | router/__main__.py:21 | a backend under `name:port` resolves to its address and port, whatever the bare name maps to |
| ProxyMain.ResolveBareName | router/__main__.py:21 | with no full-key entry, the bare name's backend is the fallback |
| ProxyMain.ResolveSkipsFalsyEntry | router/__main__.py:21 | a false full-key entry, such as `{}`, is passed over as if it were missing |
| ProxyMain.SetupSpec | router/__main__.py:30-41 | a frame error is raised before anything else; then a failed lookup is raised as such, and a backend that is not a string or does not connect fails the connect; otherwise exactly two sends: the header built from the peer and the resolved backend, then the raw frame |
| ProxyMain.SetupOfFrame | router/__main__.py:33-41 | a client whose frame names a mapped backend gets the header for its peer and the backend sent first, then exactly the frame's bytes |

## Left out

- `ProxyForever` (the relay of pkg/proxy.go), the goroutine per client, and the Python
  `handle`, `handle_forever`, `finish` and `Server`: concurrency and socket relaying.
- The `sync.RWMutex` of `ApiResolver`: the model is sequential. The poll goroutine that
  `NewApiResolver` starts is a separate method, `Poll`. The routes are fixed while `Run` runs.
- Timers (`time.Ticker`, `time.After`, the intervals): a wait only yields "fired" or
  "cancelled". A spent wake script counts as cancelled, and a spent reply script as a
  transport error.
- HTTP and JSON internals: a reply is a status with the decoded token or routes, or `None`
  for a body that does not decode. Errors from building a request or marshalling the login
  body cannot happen here and are left out.
- `url.Parse` is the parameter `urlParses`, and `os.Open` with `json.Unmarshal` is a
  `MappingFile` value.
- Logging, `MarshalZerologObject`, `fmt.Printf` and `println`.
- `log.Fatal` is the `Exhausted` outcome, and the process exit is `Poll`'s `exited` result.
- `cmd/minecraftrouter.go`, `cmd/minecraftstats`, `router/config.py` and the
  `httpx.get` fetch: the Python lookup runs over a given mapping.
- `make([]byte, serverAddressLength)` panics for a length too large to allocate; the model
  reads any length.
- When the address has no ':', Go's `split[1]` panics; the model returns `NoPortField`
  instead.
- Addresses are strings of byte-valued characters: no UTF-8 is decoded or encoded. Python's
  `server_addr.decode()` and `.encode()` are identities here, and a decode error is not
  modelled.
- Uvarint.UvarintOfEncode: the round trip is proved for values below 2^63 only, not up to 2^64.
- ProxyMain.IntOf: does not accept the surrounding whitespace and the digit underscores
  that Python's `int()` allows, and JSON numbers are integers only (no floats).
- ProxyMain.SetupSpec: the result of `connect` is a parameter, and `send` is taken to send
  the whole header.
- The unused `buf` and `readHead` fields of `MinecraftPacketReader`.
- MinecraftProtocol.Recv: a `recv(n)` always returns `min(n, available)` bytes. A socket that
  returns fewer bytes while more are pending is not modelled.
- Streams.ByteStream.Read: reads always return `min(n, remaining)` bytes, as `bytes.Reader`
  does. A short read from a general `io.Reader` is not modelled.
- MinecraftReader.MinecraftPacketReader.ReadPacket: the wrapped `io.Reader` is a
  `ByteStream`, so a payload read returns everything up to `length` that is available. An
  `io.Reader` that returns a short read while more data is pending is not modelled.
