/** pkg/router.go: the Go router. It accepts a client, reads its first 1024 bytes, decodes
    the handshake's server address and port from them, asks the resolver for the backend of
    "address:port", dials it, and writes a PROXY protocol v1 header (section 2.1 of the
    HAProxy PROXY protocol specification) followed by the whole buffer before relaying. */
module Routing {
  import opened Wrappers
  import opened Streams
  import opened VarInt
  import opened Uvarint
  import opened Text
  import opened RouteMaps
  import Resolvers

  // ---------------------------------------------------------------------------------------
  // SplitAddr and the proxy header

  /** Why `SplitAddr` fails: the address has no ':' (Go indexes `split[1]` and panics), or
      the port field does not parse as a 16-bit decimal. */
  datatype SplitError = NoPortField | BadPort(err: NumError)

  /** `SplitAddr(addr)` on `addr.String()`: the host is the text before the first ':', the
      port is the text after it up to the next ':' (the second field of `strings.Split`). */
  function SplitAddr(addr: string): Result<(string, nat), SplitError> {
    var i := IndexOf(addr, ':');
    if i == |addr| then Failure(NoPortField)
    else
      var after := addr[i + 1..];
      var p := ParseUint16(after[..IndexOf(after, ':')]);
      if p.Failure? then Failure(BadPort(p.error)) else Success((addr[..i], p.value))
  }

  /** `SplitAddr` fails for want of a ':' exactly when there is none; otherwise it succeeds
      exactly when the field after the first ':' is a non-empty decimal of at most 65535, and
      then returns the colon-free text before that ':' and the field's value. */
  lemma SplitAddrMeaning(addr: string)
    ensures var r := SplitAddr(addr);
      && (r == Failure(NoPortField) <==> ':' !in addr)
      && (':' in addr ==>
            var i := IndexOf(addr, ':');
            var field := addr[i + 1..][..IndexOf(addr[i + 1..], ':')];
            && (r.Success? <==> field != "" && AllDigits(field) && DigitsValue(field) <= MaxUint16)
            && (r.Success? ==> r.value == (addr[..i], DigitsValue(field)) && ':' !in addr[..i]))
  {
    var i := IndexOf(addr, ':');
    if i < |addr| {
      var after := addr[i + 1..];
      ParseUint16Meaning(after[..IndexOf(after, ':')]);
    }
  }

  /** Round trip: an address joined to a port by ':' splits back into the two. */
  lemma SplitAddrOfJoin(ip: string, port: nat)
    requires ':' !in ip && port <= MaxUint16
    ensures SplitAddr(ip + ":" + NatToString(port)) == Success((ip, port))
  {
    var s := NatToString(port);
    var a := ip + ":" + s;
    NatToStringDigits(port);
    assert a[|ip|] == ':';
    assert a[|ip| + 1..] == s;
    assert s[..IndexOf(s, ':')] == s;
    assert a[..|ip|] == ip;
    ParseUint16OfNatToString(port);
  }

  /** The header line: "PROXY TCP4 <src ip> <dst ip> <src port> <dst port>\r\n". */
  function HeaderText(srcIP: string, dstIP: string, srcPort: nat, dstPort: nat): string {
    "PROXY TCP4 " + srcIP + " " + dstIP + " " + NatToString(srcPort) + " " + NatToString(dstPort) + "\r\n"
  }

  /** `CreateProxyProtocolHeader(source, dest)`: it fails exactly when one of the two
      addresses does not split, reporting the source's error first. */
  function CreateProxyProtocolHeader(source: string, dest: string): (r: Result<seq<byte>, SplitError>)
    ensures r.Failure? <==> SplitAddr(source).Failure? || SplitAddr(dest).Failure?
    ensures SplitAddr(source).Failure? ==> r.error == SplitAddr(source).error
    ensures SplitAddr(source).Success? && SplitAddr(dest).Failure? ==> r.error == SplitAddr(dest).error
  {
    var s := SplitAddr(source);
    if s.Failure? then Failure(s.error)
    else
      var d := SplitAddr(dest);
      if d.Failure? then Failure(d.error)
      else Success(StrBytes(HeaderText(s.value.0, d.value.0, s.value.1, d.value.1)))
  }

  /** For two "ip:port" addresses the header carries both ips, then both ports. */
  lemma HeaderOfAddrs(srcIP: string, srcPort: nat, dstIP: string, dstPort: nat)
    requires ':' !in srcIP && ':' !in dstIP && srcPort <= MaxUint16 && dstPort <= MaxUint16
    ensures CreateProxyProtocolHeader(srcIP + ":" + NatToString(srcPort), dstIP + ":" + NatToString(dstPort))
         == Success(StrBytes(HeaderText(srcIP, dstIP, srcPort, dstPort)))
  {
    SplitAddrOfJoin(srcIP, srcPort);
    SplitAddrOfJoin(dstIP, dstPort);
  }

  // ---------------------------------------------------------------------------------------
  // Decoding the handshake from the packet buffer

  /** The size of the buffer the client's first read fills. */
  const BufferSize: nat := 1024

  /** The uvarints skipped before the address: packet length, packet id, protocol version. */
  const SkippedFields: nat := 3

  /** `packet := make([]byte, 1024)` after `client.Read(packet)` received `received`. */
  function FillBuffer(received: seq<byte>): (b: seq<byte>)
    ensures |b| == BufferSize
    ensures var n := Min(|received|, BufferSize);
      b[..n] == received[..n] && forall i :: n <= i < BufferSize ==> b[i] == 0
  {
    var n := Min(|received|, BufferSize);
    received[..n] + Zeros(BufferSize - n)
  }

  datatype DecodeError =
    | UvarintFailed(err: UvarintError)  // one of the three skipped uvarints
    | AddressEof                        // the reader was empty at the address read
    | PortEof                           // the reader was empty at the port read

  /** The server address and port a client asked for. */
  datatype Handshake = Handshake(address: seq<byte>, port: nat)

  /** What is left after `n` `ReadUvarint` calls whose errors are checked. */
  function SkipUvarints(rest: seq<byte>, n: nat): (r: Result<seq<byte>, UvarintError>)
    decreases n
    ensures r.Success? ==> |r.value| <= |rest| && r.value == rest[|rest| - |r.value|..]
  {
    if n == 0 then Success(rest)
    else
      var u := UvarintSpec(rest);
      if u.error.Some? then Failure(u.error.value) else SkipUvarints(rest[u.used..], n - 1)
  }

  /** The address length uvarint, whose error is ignored, then the address and the port. */
  function AddressAndPort(rest: seq<byte>): (r: Result<Handshake, DecodeError>)
    ensures r.Success? ==> |r.value.address| == UvarintSpec(rest).value && r.value.port < 65536
    ensures r.Failure? ==> r.error.AddressEof? || r.error.PortEof?
  {
    var size := UvarintSpec(rest);
    ReadAddressAndPort(rest[size.used..], size.value)
  }

  /** `Read` into a buffer of `size` bytes, then `Read` into a buffer of two bytes; a short
      read leaves zeros at the end of its buffer, and only an empty reader is an error. */
  function ReadAddressAndPort(rest: seq<byte>, size: nat): (r: Result<Handshake, DecodeError>)
    ensures r.Success? ==> |r.value.address| == size && r.value.port < 65536
    ensures r.Failure? ==> r.error.AddressEof? || r.error.PortEof?
  {
    if rest == [] then Failure(AddressEof)
    else
      var got := rest[..Min(size, |rest|)];
      var r2 := rest[|got|..];
      if r2 == [] then Failure(PortEof)
      else
        var raw := r2[..Min(2, |r2|)] + Zeros(2 - Min(2, |r2|));
        Success(Handshake(got + Zeros(size - |got|), raw[0] as nat * 256 + raw[1] as nat))
  }

  /** The two reads of `ReadAddressAndPort` from `rest`, when neither meets an empty reader. */
  lemma AddressAndPortOfReads(rest: seq<byte>, size: nat, got: seq<byte>, port: seq<byte>)
    requires rest != [] && got == rest[..Min(size, |rest|)]
    requires rest[|got|..] != [] && port == rest[|got|..][..Min(2, |rest[|got|..]|)]
    ensures var raw := port + Zeros(2 - |port|);
      ReadAddressAndPort(rest, size) ==
        Success(Handshake(got + Zeros(size - |got|), raw[0] as nat * 256 + raw[1] as nat))
  {
  }

  /** The decode `Run` does inline on the packet buffer. */
  function DecodeSpec(packet: seq<byte>): Result<Handshake, DecodeError> {
    var s := SkipUvarints(packet, SkippedFields);
    if s.Failure? then Failure(UvarintFailed(s.error)) else AddressAndPort(s.value)
  }

  /** The bytes a client sends: three uvarints, the address with its length, the big-endian
      port, then anything. */
  function HandshakeBytes(v1: nat, v2: nat, v3: nat, address: seq<byte>, port: nat, tail: seq<byte>): seq<byte>
    requires port < 65536
  {
    Encode(v1) + (Encode(v2) + (Encode(v3) + (Encode(|address|) + (address + (PortBytes(port) + tail)))))
  }

  lemma SkipEncoded(v: nat, tail: seq<byte>, n: nat)
    requires v < Pow2(63) && n > 0
    ensures SkipUvarints(Encode(v) + tail, n) == SkipUvarints(tail, n - 1)
  {
    UvarintOfEncode(v, tail);
    assert (Encode(v) + tail)[|Encode(v)|..] == tail;
  }

  lemma AddressAndPortOfBytes(address: seq<byte>, port: nat, tail: seq<byte>)
    requires |address| < Pow2(63) && port < 65536
    ensures AddressAndPort(Encode(|address|) + (address + (PortBytes(port) + tail)))
         == Success(Handshake(address, port))
  {
    var r1 := address + (PortBytes(port) + tail);
    UvarintOfEncode(|address|, r1);
    assert (Encode(|address|) + r1)[|Encode(|address|)|..] == r1;
    ReadAddressAndPortOfBytes(address, port, tail);
  }

  lemma ReadAddressAndPortOfBytes(address: seq<byte>, port: nat, tail: seq<byte>)
    requires port < 65536
    ensures ReadAddressAndPort(address + (PortBytes(port) + tail), |address|) == Success(Handshake(address, port))
  {
    var pb := PortBytes(port);
    var r1 := address + (pb + tail);
    assert r1[..|address|] == address;
    assert r1[|address|..] == pb + tail;
    assert (pb + tail)[..2] + Zeros(0) == pb;
    assert address + Zeros(0) == address;
  }

  /** Round trip: the decode reads back the address and port of a well-formed handshake
      whatever follows it. */
  lemma DecodeOfHandshake(v1: nat, v2: nat, v3: nat, address: seq<byte>, port: nat, tail: seq<byte>)
    requires v1 < Pow2(63) && v2 < Pow2(63) && v3 < Pow2(63) && |address| < Pow2(63) && port < 65536
    ensures DecodeSpec(HandshakeBytes(v1, v2, v3, address, port, tail)) == Success(Handshake(address, port))
  {
    var b4 := Encode(|address|) + (address + (PortBytes(port) + tail));
    var b3 := Encode(v3) + b4;
    var b2 := Encode(v2) + b3;
    SkipEncoded(v1, b2, 3);
    SkipEncoded(v2, b3, 2);
    SkipEncoded(v3, b4, 1);
    AddressAndPortOfBytes(address, port, tail);
  }

  /** Appending to what a client sends appends to the handshake's tail. */
  lemma HandshakeBytesAppend(v1: nat, v2: nat, v3: nat, address: seq<byte>, port: nat, tail: seq<byte>,
                             more: seq<byte>)
    requires port < 65536
    ensures HandshakeBytes(v1, v2, v3, address, port, tail) + more
         == HandshakeBytes(v1, v2, v3, address, port, tail + more)
  {
    var pb := PortBytes(port);
    var e0, e1, e2, e3 := Encode(v1), Encode(v2), Encode(v3), Encode(|address|);
    Assoc(pb, tail, more);
    Assoc(address, pb + tail, more);
    Assoc(e3, address + (pb + tail), more);
    Assoc(e2, e3 + (address + (pb + tail)), more);
    Assoc(e1, e2 + (e3 + (address + (pb + tail))), more);
    Assoc(e0, e1 + (e2 + (e3 + (address + (pb + tail)))), more);
  }

  /** The inline decode of `Run`, on a `bytes.Reader` over the packet buffer. */
  method DecodeHandshake(packet: seq<byte>) returns (r: Result<Handshake, DecodeError>)
    ensures r == DecodeSpec(packet)
  {
    var packetReader := new ByteStream(packet);
    var packetLength, err := ReadUvarint(packetReader);
    if err.Some? {
      return Failure(UvarintFailed(err.value));
    }
    assert SkipUvarints(packet, 3) == SkipUvarints(packetReader.Remaining(), 2);
    var packetId;
    packetId, err := ReadUvarint(packetReader);
    if err.Some? {
      return Failure(UvarintFailed(err.value));
    }
    ghost var r2 := packetReader.Remaining();
    var protocolVersion;
    protocolVersion, err := ReadUvarint(packetReader);
    if err.Some? {
      return Failure(UvarintFailed(err.value));
    }
    assert SkipUvarints(r2, 1) == Success(packetReader.Remaining());
    ghost var rest := packetReader.Remaining();
    var serverAddressLength, ignored := ReadUvarint(packetReader);
    ghost var r4 := packetReader.Remaining();
    assert AddressAndPort(rest) == ReadAddressAndPort(r4, serverAddressLength);
    r := ReadServerAddress(packetReader, serverAddressLength);
  }

  /** The end of the inline decode: the address read into a buffer of the decoded length and
      the port read into a buffer of two bytes. */
  method ReadServerAddress(packetReader: ByteStream, serverAddressLength: nat)
    returns (r: Result<Handshake, DecodeError>)
    requires packetReader.Valid()
    modifies packetReader
    ensures r == ReadAddressAndPort(old(packetReader.Remaining()), serverAddressLength)
  {
    ghost var rest := packetReader.Remaining();
    var serverAddressRaw, eof := packetReader.Read(serverAddressLength);
    if eof {
      return Failure(AddressEof);
    }
    ghost var r2 := packetReader.Remaining();
    assert r2 == rest[|serverAddressRaw|..];
    var serverPortRaw, portEof := packetReader.Read(2);
    if portEof {
      return Failure(PortEof);
    }
    var serverAddress := serverAddressRaw + Zeros(serverAddressLength - |serverAddressRaw|);
    var portBytes := serverPortRaw + Zeros(2 - |serverPortRaw|);
    AddressAndPortOfReads(rest, serverAddressLength, serverAddressRaw, serverPortRaw);
    r := Success(Handshake(serverAddress, portBytes[0] as nat * 256 + portBytes[1] as nat));
    assert r == ReadAddressAndPort(rest, serverAddressLength);
  }

  /** The key the resolver is asked: `fmt.Sprintf("%s:%d", serverAddress, serverPort)`. */
  function RoutingKey(h: Handshake): string {
    BytesToString(h.address) + ":" + NatToString(h.port)
  }

  /** The key splits back into the address and the port when the address holds no ':'. */
  lemma RoutingKeySplits(h: Handshake)
    requires ':' !in BytesToString(h.address) && h.port <= MaxUint16
    ensures SplitAddr(RoutingKey(h)) == Success((BytesToString(h.address), h.port))
  {
    SplitAddrOfJoin(BytesToString(h.address), h.port);
  }

  // ---------------------------------------------------------------------------------------
  // One connection

  /** How `net.Dial` to the backend went; `remote` is `server.RemoteAddr().String()`. */
  datatype Dial = DialFailed | Dialled(remote: string)

  /** One accepted client, as far as `Run` sees it: what its first `Read` gave (`None` for an
      error), its `RemoteAddr().String()`, the dial of its backend and whether each of the
      two writes to the backend succeeds. */
  datatype Conn = Conn(read: Option<seq<byte>>, clientAddr: string, dial: Dial,
                       headerWriteOk: bool, packetWriteOk: bool)

  datatype RouterError =
    | ListenFailed
    | AcceptFailed
    | ReadFailed
    | DecodeFailed(decode: DecodeError)
    | DialError
    | HeaderFailed(split: SplitError)
    | WriteFailed

  /** What handling one client comes to: no backend for its key (the client is closed and the
      loop goes on), an error that ends `Run` (with the backend dialled, if it was, and the
      writes attempted), or a proxied connection with the writes made to its backend. */
  datatype ConnOutcome =
    | Unrouted(key: string)
    | Fatal(err: RouterError, dialled: Option<string>, writes: seq<seq<byte>>)
    | Proxied(backend: string, writes: seq<seq<byte>>)

  /** The body of `Run`'s loop for one client, answering from the routes `table`. */
  function HandleSpec(table: RouteMap, conn: Conn): ConnOutcome {
    if conn.read.None? then Fatal(ReadFailed, None, [])
    else
      var buffer := FillBuffer(conn.read.value);
      var d := DecodeSpec(buffer);
      if d.Failure? then Fatal(DecodeFailed(d.error), None, [])
      else Forward(table, conn, buffer, RoutingKey(d.value))
  }

  /** The rest of the loop body once the key is known: resolve, dial, build the header and
      write the header and then the buffer. It misses exactly for a key the table lacks, and
      then nothing is dialled or written; a dialled backend is the table's entry for the key;
      the writes are a prefix of header-then-buffer, and the client is proxied exactly when
      the dial, the header and both writes succeed. */
  function Forward(table: RouteMap, conn: Conn, buffer: seq<byte>, key: string): (o: ConnOutcome)
    ensures o.Unrouted? <==> key !in table
    ensures o.Unrouted? ==> o.key == key
    ensures o.Fatal? && o.dialled.Some? ==> key in table && o.dialled.value == table[key]
    ensures o.Fatal? && o.err == DialError ==> o.writes == [] && conn.dial.DialFailed?
    ensures o.Fatal? && o.writes != [] ==>
              && conn.dial.Dialled?
              && CreateProxyProtocolHeader(conn.clientAddr, conn.dial.remote) == Success(o.writes[0])
              && (|o.writes| == 1 || (|o.writes| == 2 && o.writes[1] == buffer))
    ensures o.Proxied? ==>
              && key in table && o.backend == table[key] && conn.dial.Dialled?
              && |o.writes| == 2 && o.writes[1] == buffer
              && CreateProxyProtocolHeader(conn.clientAddr, conn.dial.remote) == Success(o.writes[0])
    ensures o.Proxied? <==>
              && key in table && conn.dial.Dialled?
              && CreateProxyProtocolHeader(conn.clientAddr, conn.dial.remote).Success?
              && conn.headerWriteOk && conn.packetWriteOk
  {
    var resolved := Lookup(table, key);
    if !resolved.1 then Unrouted(key)
    else if conn.dial.DialFailed? then Fatal(DialError, Some(resolved.0), [])
    else
      var header := CreateProxyProtocolHeader(conn.clientAddr, conn.dial.remote);
      if header.Failure? then Fatal(HeaderFailed(header.error), Some(resolved.0), [])
      else if !conn.headerWriteOk then Fatal(WriteFailed, Some(resolved.0), [header.value])
      else if !conn.packetWriteOk then Fatal(WriteFailed, Some(resolved.0), [header.value, buffer])
      else Proxied(resolved.0, [header.value, buffer])
  }

  /** A failed read or decode ends the loop before any backend is looked up; a client that
      reaches the resolver decoded to the key it is routed on, and a proxied client's backend
      receives the whole 1024-byte buffer, which starts with what the client sent. */
  lemma HandleOutcomes(table: RouteMap, conn: Conn)
    ensures var o := HandleSpec(table, conn);
      && (conn.read.None? ==> o == Fatal(ReadFailed, None, []))
      && (!o.Fatal? || o.dialled.Some? ==>
            && conn.read.Some?
            && var buffer := FillBuffer(conn.read.value);
            && var d := DecodeSpec(buffer);
            && d.Success?
            && (o.Unrouted? ==> o.key == RoutingKey(d.value) && o.key !in table)
            && (o.Proxied? ==>
                  && o.backend == table[RoutingKey(d.value)] && o.writes[1] == buffer
                  && |buffer| == BufferSize
                  && buffer[..Min(|conn.read.value|, BufferSize)]
                     == conn.read.value[..Min(|conn.read.value|, BufferSize)]))
  {
  }

  /** A well-formed handshake is proxied to its backend: the header names the client and the
      backend, and the buffer holds what the client sent followed by zeros. */
  lemma HandleOfHandshake(table: RouteMap, conn: Conn, v1: nat, v2: nat, v3: nat,
                          address: seq<byte>, port: nat, tail: seq<byte>,
                          clientIP: string, clientPort: nat, serverIP: string, serverPort: nat)
    requires v1 < Pow2(63) && v2 < Pow2(63) && v3 < Pow2(63) && |address| < Pow2(63) && port < 65536
    requires conn.read == Some(HandshakeBytes(v1, v2, v3, address, port, tail))
    requires |HandshakeBytes(v1, v2, v3, address, port, tail)| <= BufferSize
    requires RoutingKey(Handshake(address, port)) in table
    requires ':' !in clientIP && ':' !in serverIP && clientPort <= MaxUint16 && serverPort <= MaxUint16
    requires conn.clientAddr == clientIP + ":" + NatToString(clientPort)
    requires conn.dial == Dialled(serverIP + ":" + NatToString(serverPort))
    requires conn.headerWriteOk && conn.packetWriteOk
    ensures HandleSpec(table, conn)
         == Proxied(table[RoutingKey(Handshake(address, port))],
                    [StrBytes(HeaderText(clientIP, serverIP, clientPort, serverPort)),
                     FillBuffer(conn.read.value)])
  {
    DecodeOfFilled(v1, v2, v3, address, port, tail);
    assert HandleSpec(table, conn)
        == Forward(table, conn, FillBuffer(conn.read.value), RoutingKey(Handshake(address, port)));
    HeaderOfAddrs(clientIP, clientPort, serverIP, serverPort);
  }

  /** A handshake that fits the buffer still decodes once padded with zeros. */
  lemma DecodeOfFilled(v1: nat, v2: nat, v3: nat, address: seq<byte>, port: nat, tail: seq<byte>)
    requires v1 < Pow2(63) && v2 < Pow2(63) && v3 < Pow2(63) && |address| < Pow2(63) && port < 65536
    requires |HandshakeBytes(v1, v2, v3, address, port, tail)| <= BufferSize
    ensures DecodeSpec(FillBuffer(HandshakeBytes(v1, v2, v3, address, port, tail)))
         == Success(Handshake(address, port))
  {
    var sent := HandshakeBytes(v1, v2, v3, address, port, tail);
    var zeros := Zeros(BufferSize - |sent|);
    assert Min(|sent|, BufferSize) == |sent|;
    assert sent[..|sent|] == sent;
    assert FillBuffer(sent) == sent + zeros;
    HandshakeBytesAppend(v1, v2, v3, address, port, tail, zeros);
    DecodeOfHandshake(v1, v2, v3, address, port, tail + zeros);
  }

  /** One client of `Run`'s loop, resolved through `resolver`. */
  method HandleConnection(resolver: Resolvers.Resolver, conn: Conn) returns (o: ConnOutcome)
    ensures o == HandleSpec(Resolvers.Table(resolver), conn)
  {
    if conn.read.None? {
      return Fatal(ReadFailed, None, []);
    }
    var packet := FillBuffer(conn.read.value);
    var decoded := DecodeHandshake(packet);
    if decoded.Failure? {
      return Fatal(DecodeFailed(decoded.error), None, []);
    }
    var requestedAddress := RoutingKey(decoded.value);
    var resolved := Resolvers.ResolveHostname(resolver, requestedAddress);
    if !resolved.1 {
      return Unrouted(requestedAddress);
    }
    if conn.dial.DialFailed? {
      return Fatal(DialError, Some(resolved.0), []);
    }
    var header := CreateProxyProtocolHeader(conn.clientAddr, conn.dial.remote);
    if header.Failure? {
      return Fatal(HeaderFailed(header.error), Some(resolved.0), []);
    }
    if !conn.headerWriteOk {
      return Fatal(WriteFailed, Some(resolved.0), [header.value]);
    }
    if !conn.packetWriteOk {
      return Fatal(WriteFailed, Some(resolved.0), [header.value, packet]);
    }
    return Proxied(resolved.0, [header.value, packet]);
  }

  // ---------------------------------------------------------------------------------------
  // The accept loop

  /** What one `listener.Accept()` gives. */
  datatype Accept = AcceptError | Accepted(conn: Conn)

  /** Why `Run` returned (`None` when the accepted clients ran out) and what became of each
      client it handled. */
  datatype RunResult = RunResult(stop: Option<RouterError>, outcomes: seq<ConnOutcome>)

  /** What `Run`'s loop makes of one accept: a failed `Accept`, or a handled client. */
  datatype Event = Refused | Handled(outcome: ConnOutcome)

  function EventOf(table: RouteMap, a: Accept): Event {
    if a.AcceptError? then Refused else Handled(HandleSpec(table, a.conn))
  }

  function Events(table: RouteMap, accepts: seq<Accept>): (e: seq<Event>)
    ensures |e| == |accepts| && forall k :: 0 <= k < |accepts| ==> e[k] == EventOf(table, accepts[k])
  {
    seq(|accepts|, k requires 0 <= k < |accepts| => EventOf(table, accepts[k]))
  }

  /** `Run`'s loop over the events still to come. */
  function RunOver(events: seq<Event>): (r: RunResult)
    decreases |events|
    ensures |r.outcomes| <= |events|
  {
    if events == [] then RunResult(None, [])
    else match events[0]
      case Refused => RunResult(Some(AcceptFailed), [])
      case Handled(o) =>
        if o.Fatal? then RunResult(Some(o.err), [o])
        else
          var later := RunOver(events[1..]);
          RunResult(later.stop, [o] + later.outcomes)
  }

  /** `Run`: listen, then handle clients until an error. */
  function RunSpec(table: RouteMap, listenOk: bool, accepts: seq<Accept>): RunResult {
    if !listenOk then RunResult(Some(ListenFailed), []) else RunOver(Events(table, accepts))
  }

  /** Every error but a resolution miss ends the loop: only the last client handled can have
      failed, it failed exactly when the loop stopped for a reason other than `Accept`, and
      the loop runs through all clients when none fails. */
  lemma {:induction false} RunOverStopsAtFirstError(events: seq<Event>)
    decreases |events|
    ensures var r := RunOver(events);
      && (forall k :: 0 <= k < |r.outcomes| - 1 ==> !r.outcomes[k].Fatal?)
      && (forall k :: 0 <= k < |r.outcomes| ==> events[k] == Handled(r.outcomes[k]))
      && (r.stop.None? <==>
            forall k :: 0 <= k < |events| ==> events[k].Handled? && !events[k].outcome.Fatal?)
      && (r.stop.None? ==> |r.outcomes| == |events|)
      && (r.stop.Some? && r.stop != Some(AcceptFailed) ==>
            r.outcomes != [] && r.outcomes[|r.outcomes| - 1].Fatal?
            && r.stop == Some(r.outcomes[|r.outcomes| - 1].err))
  {
    if events != [] && events[0].Handled? && !events[0].outcome.Fatal? {
      var later := events[1..];
      RunOverStopsAtFirstError(later);
      var r := RunOver(events);
      assert r.outcomes == [events[0].outcome] + RunOver(later).outcomes;
      forall k | 0 <= k < |r.outcomes|
        ensures events[k] == Handled(r.outcomes[k])
      {
        if k > 0 {
          assert events[k] == later[k - 1];
        }
      }
      if r.stop.None? {
        forall k | 0 <= k < |events|
          ensures events[k].Handled? && !events[k].outcome.Fatal?
        {
          if k > 0 {
            assert events[k] == later[k - 1];
          }
        }
      }
    }
  }

  /** The loop's events, stated on the accepts they come from for any client handler. */
  lemma AcceptsStopAtFirstError(handle: Conn -> ConnOutcome, accepts: seq<Accept>, events: seq<Event>)
    requires |events| == |accepts|
    requires forall k :: 0 <= k < |accepts| ==>
      events[k] == (if accepts[k].AcceptError? then Refused else Handled(handle(accepts[k].conn)))
    ensures var r := RunOver(events);
      && (forall k :: 0 <= k < |r.outcomes| - 1 ==> !r.outcomes[k].Fatal?)
      && (forall k :: 0 <= k < |r.outcomes| ==>
            accepts[k].Accepted? && r.outcomes[k] == handle(accepts[k].conn))
      && (r.stop.None? <==>
            forall k :: 0 <= k < |accepts| ==> accepts[k].Accepted? && !handle(accepts[k].conn).Fatal?)
      && (r.stop.None? ==> |r.outcomes| == |accepts|)
      && (r.stop.Some? && r.stop != Some(AcceptFailed) ==>
            r.outcomes != [] && r.outcomes[|r.outcomes| - 1].Fatal?
            && r.stop == Some(r.outcomes[|r.outcomes| - 1].err))
  {
    RunOverStopsAtFirstError(events);
  }

  /** The same for `Run` once listening succeeded, in terms of the accepts and the clients'
      outcomes. */
  lemma RunStopsAtFirstError(table: RouteMap, accepts: seq<Accept>)
    ensures var r := RunSpec(table, true, accepts);
      && (forall k :: 0 <= k < |r.outcomes| - 1 ==> !r.outcomes[k].Fatal?)
      && (forall k :: 0 <= k < |r.outcomes| ==>
            accepts[k].Accepted? && r.outcomes[k] == HandleSpec(table, accepts[k].conn))
      && (r.stop.None? <==>
            forall k :: 0 <= k < |accepts| ==>
              accepts[k].Accepted? && !HandleSpec(table, accepts[k].conn).Fatal?)
      && (r.stop.None? ==> |r.outcomes| == |accepts|)
      && (r.stop.Some? && r.stop != Some(AcceptFailed) ==>
            r.outcomes != [] && r.outcomes[|r.outcomes| - 1].Fatal?
            && r.stop == Some(r.outcomes[|r.outcomes| - 1].err))
  {
    AcceptsStopAtFirstError(c => HandleSpec(table, c), accepts, Events(table, accepts));
  }

  /** The router of `NewRouter(address, resolver)`. */
  datatype Router = Router(resolver: Resolvers.Resolver, address: string)

  function NewRouter(address: string, resolver: Resolvers.Resolver): (r: Router)
    ensures r.resolver == resolver && r.address == address
  {
    Router(resolver, address)
  }

  function Prefixed(done: seq<ConnOutcome>, r: RunResult): RunResult {
    RunResult(r.stop, done + r.outcomes)
  }

  /** Outcomes handled in two runs of the loop add up. */
  lemma PrefixedTwice(a: seq<ConnOutcome>, b: seq<ConnOutcome>, r: RunResult)
    ensures Prefixed(a, Prefixed(b, r)) == Prefixed(a + b, r)
  {
    assert a + (b + r.outcomes) == a + b + r.outcomes;
  }

  /** One step of `Run`'s loop, at the `i`-th event. */
  lemma RunOverAt(events: seq<Event>, i: nat)
    requires i < |events|
    ensures RunOver(events[i..]) ==
      match events[i]
      case Refused => RunResult(Some(AcceptFailed), [])
      case Handled(o) =>
        if o.Fatal? then RunResult(Some(o.err), [o]) else Prefixed([o], RunOver(events[i + 1..]))
  {
    assert events[i..][1..] == events[i + 1..];
  }

  /** `(r Router) Run()`: `listenOk` is whether `net.Listen` succeeded, `accepts` what the
      successive `Accept` calls give. */
  method Run(router: Router, listenOk: bool, accepts: seq<Accept>) returns (r: RunResult)
    ensures r == RunSpec(Resolvers.Table(router.resolver), listenOk, accepts)
  {
    if !listenOk {
      return RunResult(Some(ListenFailed), []);
    }
    ghost var table := Resolvers.Table(router.resolver);
    ghost var events := Events(table, accepts);
    var outcomes: seq<ConnOutcome> := [];
    var i := 0;
    while i < |accepts|
      invariant 0 <= i <= |accepts|
      invariant Resolvers.Table(router.resolver) == table
      invariant RunOver(events) == Prefixed(outcomes, RunOver(events[i..]))
    {
      RunOverAt(events, i);
      assert events[i] == EventOf(table, accepts[i]);
      if accepts[i].AcceptError? {
        return RunResult(Some(AcceptFailed), outcomes);
      }
      assert router.resolver.Api? ==> allocated(router.resolver.api);
      var o := HandleConnection(router.resolver, accepts[i].conn);
      assert Resolvers.Table(router.resolver) == table;
      assert events[i] == Handled(o);
      PrefixedTwice(outcomes, [o], RunOver(events[i + 1..]));
      outcomes := outcomes + [o];
      if o.Fatal? {
        return RunResult(Some(o.err), outcomes);
      }
      i := i + 1;
    }
    return RunResult(None, outcomes);
  }
}
