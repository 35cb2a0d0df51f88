/** The Python handshake reader of router/minecraft_protocol.py: `read_varint` and
    `read_connection_frame` over the client socket, which rebuild the exact bytes they
    consumed so that the frame can be forwarded unchanged. */
module MinecraftProtocol {
  import opened Wrappers
  import opened Streams
  import opened VarInt

  /** `read_varint` raises once the shift `position` reaches 32, that is after the fifth
      byte with the continuation bit; so at most five bytes form a varint. */
  const MaxPosition: nat := 32
  const MaxVarIntBytes: nat := 5

  datatype FrameError =
    | StreamClosed         // `recv(1)` returned no byte: unpacking it raises
    | VarIntTooLong        // Exception("Yikes")
    | NotConnectionFrame   // RuntimeError("Not a connection frame")
    | BadPortField         // `struct.unpack(">H", port)` on other than two bytes

  /** What `read_varint` returns or raises on a socket delivering `rest`, and how many
      bytes it took. */
  datatype VarIntRead = VarIntRead(result: Result<(nat, seq<byte>), FrameError>, used: nat)

  function ReadVarIntSpec(rest: seq<byte>): (r: VarIntRead)
    ensures r.used <= MaxVarIntBytes && r.used <= |rest|
    ensures r.result.Success? ==> r.result.value.1 == rest[..r.used]
  {
    match ScanVarInt(rest, MaxVarIntBytes)
    case Complete(n) => VarIntRead(Success((Value(rest[..n]), rest[..n])), n)
    case Truncated(n) => VarIntRead(Failure(StreamClosed), n)
    case Overlong => VarIntRead(Failure(VarIntTooLong), MaxVarIntBytes)
  }

  /** `read_varint` stops at the first byte without the continuation bit and returns the
      value of the bytes up to it together with exactly those bytes; it raises when the
      socket runs dry before such a byte, or when five continuation bytes come in a row. */
  lemma ReadVarIntMeaning(rest: seq<byte>)
    ensures var r := ReadVarIntSpec(rest);
      && (r.result.Success? ==>
            1 <= r.used && r.result.value.1 == rest[..r.used] && r.result.value.0 == Value(rest[..r.used])
            && !Continues(rest[r.used - 1]) && forall k :: 0 <= k < r.used - 1 ==> Continues(rest[k]))
      && (r.result == Failure(StreamClosed) <==>
            |rest| < MaxVarIntBytes && r.used == |rest| && forall k :: 0 <= k < |rest| ==> Continues(rest[k]))
      && (r.result == Failure(VarIntTooLong) <==>
            MaxVarIntBytes <= |rest| && r.used == MaxVarIntBytes
            && forall k :: 0 <= k < MaxVarIntBytes ==> Continues(rest[k]))
      && (r.result.Failure? ==> r.result.error in {StreamClosed, VarIntTooLong})
  {
    ScanVarIntMeaning(rest, MaxVarIntBytes);
  }

  /** Round trip: a value below 2^35 is read back with exactly its encoding. */
  lemma ReadVarIntOfEncode(v: nat, tail: seq<byte>)
    requires v < Pow2(35)
    ensures ReadVarIntSpec(Encode(v) + tail) == VarIntRead(Success((v, Encode(v))), |Encode(v)|)
  {
    assert Pow2(35) == Pow2(7 * MaxVarIntBytes);
    ScanEncoded(v, tail, MaxVarIntBytes);
  }

  /** `read_varint`, socket `s`: one `recv(1)` per step, OR-ing `(byte & 0x7F) << position`
      into `value` and appending the byte to `_bytes`. */
  method ReadVarInt(s: ByteStream) returns (r: Result<(nat, seq<byte>), FrameError>)
    requires s.Valid()
    modifies s
    ensures s.Valid()
    ensures var spec := ReadVarIntSpec(old(s.Remaining()));
      r == spec.result && s.pos == old(s.pos) + spec.used && s.Remaining() == old(s.Remaining())[spec.used..]
  {
    ghost var rest := s.Remaining();
    var value: nat := 0;
    var position := 0;
    var bytes: seq<byte> := [];
    while true
      invariant s.Valid()
      invariant position == 7 * |bytes| && position < MaxPosition
      invariant |bytes| <= |rest| && bytes == rest[..|bytes|]
      invariant s.pos == old(s.pos) + |bytes| && s.Remaining() == rest[|bytes|..]
      invariant forall k :: 0 <= k < |bytes| ==> Continues(rest[k])
      invariant value == Value(bytes)
      decreases MaxPosition - position
    {
      var b, eof := s.ReadByte();
      if eof {
        assert bytes == rest;
        SpecTruncated(rest);
        return Failure(StreamClosed);
      }
      NextByte(rest, bytes, b);
      bytes := bytes + [b];
      value := value + Segment(b) * Pow2(position);
      if !Continues(b) {
        SpecComplete(rest, |bytes| - 1);
        return Success((value, bytes));
      }
      position := position + 7;
      if position >= MaxPosition {
        SpecOverlong(rest);
        return Failure(VarIntTooLong);
      }
    }
  }

  lemma SpecTruncated(rest: seq<byte>)
    requires |rest| < MaxVarIntBytes && forall k :: 0 <= k < |rest| ==> Continues(rest[k])
    ensures ReadVarIntSpec(rest) == VarIntRead(Failure(StreamClosed), |rest|)
  {
    ScanEndsTruncated(rest, MaxVarIntBytes);
  }

  lemma SpecComplete(rest: seq<byte>, i: nat)
    requires i < |rest| && i < MaxVarIntBytes && !Continues(rest[i])
    requires forall k :: 0 <= k < i ==> Continues(rest[k])
    ensures ReadVarIntSpec(rest) == VarIntRead(Success((Value(rest[..i + 1]), rest[..i + 1])), i + 1)
  {
    ScanEndsComplete(rest, i, MaxVarIntBytes);
  }

  lemma SpecOverlong(rest: seq<byte>)
    requires MaxVarIntBytes <= |rest| && forall k :: 0 <= k < MaxVarIntBytes ==> Continues(rest[k])
    ensures ReadVarIntSpec(rest) == VarIntRead(Failure(VarIntTooLong), MaxVarIntBytes)
  {
    ScanEndsOverlong(rest, MaxVarIntBytes);
  }

  /** The frame's routing fields; `next_state` is consumed but not kept. The address is
      kept as the bytes received. */
  datatype ConnectionFrame = ConnectionFrame(protocolVersion: nat, serverAddress: seq<byte>, port: nat)

  /** The outcome of reading (part of) a frame from a socket delivering some bytes: the
      frame and the raw bytes consumed, or the error raised; and how many bytes were read. */
  datatype FrameRead = FrameRead(result: Result<(ConnectionFrame, seq<byte>), FrameError>, used: nat)

  /** A read of `bytes` (`n` of them) followed by the read `r`. */
  function Then(bytes: seq<byte>, n: nat, r: FrameRead): FrameRead
  {
    var result := if r.result.Success? then Success((r.result.value.0, bytes + r.result.value.1)) else r.result;
    FrameRead(result, n + r.used)
  }

  /** `s.recv(n)` on a socket delivering `rest`. */
  function Recv(rest: seq<byte>, n: nat): (got: seq<byte>)
    ensures got == rest[..Min(n, |rest|)]
  {
    rest[..Min(n, |rest|)]
  }

  /** The varint fields at the head of a handshake frame, in the order
      `read_connection_frame` reads them; the address size carries the protocol version
      read before it. */
  datatype Field =
    | PacketSize
    | PacketId                 // must be 0
    | ProtocolVersion
    | AddressSize(protocol: nat)

  function Rank(f: Field): nat
  {
    match f
    case PacketSize => 3
    case PacketId => 2
    case ProtocolVersion => 1
    case AddressSize(_) => 0
  }

  /** The field that follows `f` when `f` read the value `n`. */
  function NextField(f: Field, n: nat): (g: Field)
    requires !f.AddressSize?
    ensures Rank(g) + 1 == Rank(f)
  {
    match f
    case PacketSize => PacketId
    case PacketId => ProtocolVersion
    case ProtocolVersion => AddressSize(n)
  }

  /** The end of the frame: `recv(size)` of the address, `recv(2)` of the port, the
      next-state varint; the port must be two bytes. */
  function AddressAndRestOn(rest: seq<byte>, protocol: nat, size: nat): (r: FrameRead)
    ensures r.used <= |rest|
  {
    var address := Recv(rest, size);
    var port := Recv(rest[|address|..], 2);
    FinishFrame(protocol, address, port, ReadVarIntSpec(rest[|address| + |port|..]))
  }

  /** The frame once the address and the port are received and the next-state varint read
      as `v4`. */
  function FinishFrame(protocol: nat, address: seq<byte>, port: seq<byte>, v4: VarIntRead): (r: FrameRead)
    ensures r.used == |address| + |port| + v4.used
  {
    var n := |address| + |port| + v4.used;
    if v4.result.Failure? then FrameRead(Failure(v4.result.error), n)
    else if |port| != 2 then FrameRead(Failure(BadPortField), n)
    else
      var frame := ConnectionFrame(protocol, address, port[0] as nat * 256 + port[1] as nat);
      FrameRead(Success((frame, address + port + v4.result.value.1)), n)
  }

  /** `read_connection_frame` from the varint field `f` on, on a socket delivering `rest`. */
  function ReadFrom(f: Field, rest: seq<byte>): (r: FrameRead)
    ensures r.used <= |rest|
    decreases Rank(f), 1
  {
    var v := ReadVarIntSpec(rest);
    if v.result.Failure? then FrameRead(Failure(v.result.error), v.used)
    else if f == PacketId && v.result.value.0 != 0 then FrameRead(Failure(NotConnectionFrame), v.used)
    else Then(v.result.value.1, v.used, After(f, v.result.value.0, rest[v.used..]))
  }

  /** The rest of the frame after field `f` read the value `n`. */
  function After(f: Field, n: nat, rest: seq<byte>): (r: FrameRead)
    ensures r.used <= |rest|
    decreases Rank(f), 0
  {
    if f.AddressSize? then AddressAndRestOn(rest, f.protocol, n) else ReadFrom(NextField(f, n), rest)
  }

  /** `read_connection_frame` on a socket delivering `rest`. */
  function ReadConnectionFrameSpec(rest: seq<byte>): (r: FrameRead)
    ensures r.used <= |rest|
  {
    ReadFrom(PacketSize, rest)
  }

  /** Reads that return the bytes they consumed, chained, return the bytes consumed. */
  lemma ThenRaw(rest: seq<byte>, n: nat, r: FrameRead)
    requires n + r.used <= |rest|
    requires r.result.Success? ==> r.result.value.1 == rest[n..][..r.used]
    ensures var t := Then(rest[..n], n, r);
      t.result.Success? ==> t.result.value.1 == rest[..t.used]
  {
    if r.result.Success? {
      assert rest[..n] + rest[n..][..r.used] == rest[..n + r.used];
    }
  }

  lemma AddressAndRestRaw(rest: seq<byte>, protocol: nat, size: nat)
    ensures var r := AddressAndRestOn(rest, protocol, size);
      r.result.Success? ==> r.result.value.1 == rest[..r.used] && r.result.value.0.port < 65536
  {
    var address := Recv(rest, size);
    var port := Recv(rest[|address|..], 2);
    var v4 := ReadVarIntSpec(rest[|address| + |port|..]);
    if v4.result.Success? {
      assert rest[..|address|] + rest[|address|..][..|port|] == rest[..|address| + |port|];
      assert rest[..|address| + |port|] + rest[|address| + |port|..][..v4.used]
          == rest[..|address| + |port| + v4.used];
    }
  }

  lemma {:induction false} ReadFromRaw(f: Field, rest: seq<byte>)
    ensures var r := ReadFrom(f, rest);
      r.result.Success? ==> r.result.value.1 == rest[..r.used] && r.result.value.0.port < 65536
    decreases Rank(f)
  {
    var v := ReadVarIntSpec(rest);
    if v.result.Success? && !(f == PacketId && v.result.value.0 != 0) {
      var n, more := v.result.value.0, rest[v.used..];
      if f.AddressSize? {
        AddressAndRestRaw(more, f.protocol, n);
      } else {
        ReadFromRaw(NextField(f, n), more);
      }
      ThenRaw(rest, v.used, After(f, n, more));
    }
  }

  /** The raw packet returned is exactly the bytes consumed from the socket, in order, and
      the port is a 16-bit value. */
  lemma ReadConnectionFrameRaw(rest: seq<byte>)
    ensures var r := ReadConnectionFrameSpec(rest);
      r.used <= |rest|
      && (r.result.Success? ==> r.result.value.1 == rest[..r.used] && r.result.value.0.port < 65536)
  {
    ReadFromRaw(PacketSize, rest);
  }

  /** A frame whose packet id is not 0 is refused once the first two varints are read. */
  lemma NotConnectionFrameRefused(rest: seq<byte>)
    requires ReadVarIntSpec(rest).result.Success?
    requires var v0 := ReadVarIntSpec(rest); var v1 := ReadVarIntSpec(rest[v0.used..]);
      v1.result.Success? && v1.result.value.0 != 0
    ensures ReadConnectionFrameSpec(rest).result == Failure(NotConnectionFrame)
  {
  }

  /** The bytes of a handshake frame as a client sends it. */
  function FrameBytes(size: nat, protocol: nat, address: seq<byte>, port: nat, next: nat): seq<byte>
    requires port < 65536
  {
    Encode(size) + (Encode(0) + (Encode(protocol) + (Encode(|address|)
      + (address + PortBytes(port) + Encode(next)))))
  }

  /** The address, port and next-state fields are read back from their bytes. */
  lemma AddressAndRestOfBytes(address: seq<byte>, port: nat, next: nat, tail: seq<byte>, protocol: nat)
    requires port < 65536 && next < Pow2(35)
    ensures var b := address + PortBytes(port) + Encode(next);
      AddressAndRestOn(b + tail, protocol, |address|)
        == FrameRead(Success((ConnectionFrame(protocol, address, port), b)), |b|)
  {
    var pb, en := PortBytes(port), Encode(next);
    var rest := address + pb + en + tail;
    assert rest == address + (pb + (en + tail)) by {
      Assoc(address, pb, en);
      Assoc(address + pb, en, tail);
      Assoc(address, pb, en + tail);
    }
    assert Recv(rest, |address|) == address;
    assert rest[|address|..] == pb + (en + tail);
    assert Recv(pb + (en + tail), 2) == pb;
    assert rest[|address| + |pb|..] == en + tail;
    ReadVarIntOfEncode(next, tail);
    assert AddressAndRestOn(rest, protocol, |address|)
        == FinishFrame(protocol, address, pb, VarIntRead(Success((next, en)), |en|));
    FinishFrameOfPort(protocol, address, port, next, en);
  }

  lemma FinishFrameOfPort(protocol: nat, address: seq<byte>, port: nat, v: nat, bytes: seq<byte>)
    requires port < 65536
    ensures FinishFrame(protocol, address, PortBytes(port), VarIntRead(Success((v, bytes)), |bytes|))
         == FrameRead(Success((ConnectionFrame(protocol, address, port), address + PortBytes(port) + bytes)),
                      |address| + 2 + |bytes|)
  {
  }

  /** A varint field is read back from its encoding followed by the later fields. */
  lemma VarIntFieldOfBytes(f: Field, v: nat, body: seq<byte>, frame: ConnectionFrame, more: seq<byte>)
    requires (f == PacketId ==> v == 0) && v < Pow2(35)
    requires After(f, v, more) == FrameRead(Success((frame, body)), |body|)
    ensures ReadFrom(f, Encode(v) + more)
      == FrameRead(Success((frame, Encode(v) + body)), |Encode(v)| + |body|)
  {
    var e := Encode(v);
    ReadVarIntOfEncode(v, more);
    assert (e + more)[|e|..] == more;
    VarIntFieldOf(f, v, e, e + more, body, frame);
  }

  lemma VarIntFieldOf(f: Field, v: nat, e: seq<byte>, rest: seq<byte>, body: seq<byte>, frame: ConnectionFrame)
    requires f == PacketId ==> v == 0
    requires ReadVarIntSpec(rest) == VarIntRead(Success((v, e)), |e|)
    requires After(f, v, rest[|e|..]) == FrameRead(Success((frame, body)), |body|)
    ensures ReadFrom(f, rest) == FrameRead(Success((frame, e + body)), |e| + |body|)
  {
  }

  /** Round trip: a well-formed frame, whatever follows it on the socket, is read back as
      its protocol version, address and big-endian port, together with exactly its bytes. */
  lemma ReadConnectionFrameOfBytes(size: nat, protocol: nat, address: seq<byte>, port: nat,
                                   next: nat, tail: seq<byte>)
    requires port < 65536
    requires size < Pow2(35) && protocol < Pow2(35) && |address| < Pow2(35) && next < Pow2(35)
    ensures var f := FrameBytes(size, protocol, address, port, next);
      ReadConnectionFrameSpec(f + tail)
        == FrameRead(Success((ConnectionFrame(protocol, address, port), f)), |f|)
  {
    var b1 := Encode(0) + (Encode(protocol) + (Encode(|address|) + (address + PortBytes(port) + Encode(next))));
    PacketIdFieldOfBytes(protocol, address, port, next, tail);
    VarIntFieldOfBytes(PacketSize, size, b1, ConnectionFrame(protocol, address, port), b1 + tail);
    Assoc(Encode(size), b1, tail);
  }

  /** The frame from its packet id field on is read back from its bytes. */
  lemma PacketIdFieldOfBytes(protocol: nat, address: seq<byte>, port: nat, next: nat, tail: seq<byte>)
    requires port < 65536
    requires protocol < Pow2(35) && |address| < Pow2(35) && next < Pow2(35)
    ensures var b := Encode(0) + (Encode(protocol) + (Encode(|address|) + (address + PortBytes(port) + Encode(next))));
      ReadFrom(PacketId, b + tail)
        == FrameRead(Success((ConnectionFrame(protocol, address, port), b)), |b|)
  {
    var b2 := Encode(protocol) + (Encode(|address|) + (address + PortBytes(port) + Encode(next)));
    VersionFieldOfBytes(protocol, address, port, next, tail);
    VarIntFieldOfBytes(PacketId, 0, b2, ConnectionFrame(protocol, address, port), b2 + tail);
    Assoc(Encode(0), b2, tail);
  }

  /** The frame from its protocol version field on is read back from its bytes. */
  lemma VersionFieldOfBytes(protocol: nat, address: seq<byte>, port: nat, next: nat, tail: seq<byte>)
    requires port < 65536
    requires protocol < Pow2(35) && |address| < Pow2(35) && next < Pow2(35)
    ensures var b := Encode(protocol) + (Encode(|address|) + (address + PortBytes(port) + Encode(next)));
      ReadFrom(ProtocolVersion, b + tail)
        == FrameRead(Success((ConnectionFrame(protocol, address, port), b)), |b|)
  {
    var b3 := Encode(|address|) + (address + PortBytes(port) + Encode(next));
    AddressFieldOfBytes(protocol, address, port, next, tail);
    VarIntFieldOfBytes(ProtocolVersion, protocol, b3, ConnectionFrame(protocol, address, port), b3 + tail);
    Assoc(Encode(protocol), b3, tail);
  }

  /** The frame from its address size field on is read back from its bytes. */
  lemma AddressFieldOfBytes(protocol: nat, address: seq<byte>, port: nat, next: nat, tail: seq<byte>)
    requires port < 65536
    requires |address| < Pow2(35) && next < Pow2(35)
    ensures var b := Encode(|address|) + (address + PortBytes(port) + Encode(next));
      ReadFrom(AddressSize(protocol), b + tail)
        == FrameRead(Success((ConnectionFrame(protocol, address, port), b)), |b|)
  {
    var b4 := address + PortBytes(port) + Encode(next);
    AddressAndRestOfBytes(address, port, next, tail, protocol);
    VarIntFieldOfBytes(AddressSize(protocol), |address|, b4, ConnectionFrame(protocol, address, port), b4 + tail);
    Assoc(Encode(|address|), b4, tail);
  }

  /** `read_connection_frame`, socket `s`, consuming the stream field by field. */
  method ReadConnectionFrame(s: ByteStream) returns (r: Result<(ConnectionFrame, seq<byte>), FrameError>)
    requires s.Valid()
    modifies s
    ensures s.Valid()
    ensures var spec := ReadConnectionFrameSpec(old(s.Remaining()));
      r == spec.result && s.pos == old(s.pos) + spec.used
  {
    ghost var r0 := s.Remaining();
    var p0 := ReadVarInt(s);
    if p0.Failure? {
      return Failure(p0.error);
    }
    ghost var r1 := s.Remaining();
    assert r1 == r0[|p0.value.1|..];
    assert ReadFrom(PacketSize, r0) == Then(p0.value.1, |p0.value.1|, ReadFrom(PacketId, r1));
    var p1 := ReadVarInt(s);
    if p1.Failure? {
      return Failure(p1.error);
    }
    var packetId := p1.value.0;
    if packetId != 0 {
      return Failure(NotConnectionFrame);
    }
    ghost var r2 := s.Remaining();
    assert r2 == r1[|p1.value.1|..];
    assert ReadFrom(PacketId, r1) == Then(p1.value.1, |p1.value.1|, ReadFrom(ProtocolVersion, r2));
    r := ReadVersionAndRest(s);
    if r.Success? {
      Assoc(p0.value.1, p1.value.1, r.value.1);
      r := Success((r.value.0, p0.value.1 + p1.value.1 + r.value.1));
    }
  }

  /** The middle of `read_connection_frame`: the protocol version and the address size,
      then the rest of the frame. */
  method ReadVersionAndRest(s: ByteStream) returns (r: Result<(ConnectionFrame, seq<byte>), FrameError>)
    requires s.Valid()
    modifies s
    ensures s.Valid()
    ensures var spec := ReadFrom(ProtocolVersion, old(s.Remaining()));
      r == spec.result && s.pos == old(s.pos) + spec.used
  {
    ghost var r2 := s.Remaining();
    var p2 := ReadVarInt(s);
    if p2.Failure? {
      return Failure(p2.error);
    }
    var protocolVersion := p2.value.0;
    ghost var r3 := s.Remaining();
    assert r3 == r2[|p2.value.1|..];
    assert ReadFrom(ProtocolVersion, r2)
      == Then(p2.value.1, |p2.value.1|, ReadFrom(AddressSize(protocolVersion), r3));
    var p3 := ReadVarInt(s);
    if p3.Failure? {
      return Failure(p3.error);
    }
    var serverAddressSize := p3.value.0;
    ghost var r4 := s.Remaining();
    assert r4 == r3[|p3.value.1|..];
    ghost var last := AddressAndRestOn(r4, protocolVersion, serverAddressSize);
    assert ReadFrom(AddressSize(protocolVersion), r3) == Then(p3.value.1, |p3.value.1|, last);
    r := ReadAddressAndRest(s, protocolVersion, serverAddressSize);
    if r.Success? {
      Assoc(p2.value.1, p3.value.1, r.value.1);
      r := Success((r.value.0, p2.value.1 + p3.value.1 + r.value.1));
    }
  }

  /** The end of `read_connection_frame`: `recv` of the address, `recv(2)` of the port,
      then the next-state varint. */
  method ReadAddressAndRest(s: ByteStream, protocolVersion: nat, serverAddressSize: nat)
    returns (r: Result<(ConnectionFrame, seq<byte>), FrameError>)
    requires s.Valid()
    modifies s
    ensures s.Valid()
    ensures var spec := AddressAndRestOn(old(s.Remaining()), protocolVersion, serverAddressSize);
      r == spec.result && s.pos == old(s.pos) + spec.used
  {
    ghost var rest := s.Remaining();
    var serverAddress, _ := s.Read(serverAddressSize);
    assert serverAddress == Recv(rest, serverAddressSize);
    var port, _ := s.Read(2);
    assert port == Recv(rest[|serverAddress|..], 2);
    assert s.Remaining() == rest[|serverAddress| + |port|..];
    ghost var v4 := ReadVarIntSpec(s.Remaining());
    assert AddressAndRestOn(rest, protocolVersion, serverAddressSize)
        == FinishFrame(protocolVersion, serverAddress, port, v4);
    r := FinishRead(s, protocolVersion, serverAddress, port);
  }

  /** The last step of `read_connection_frame`, once the address and the port are received:
      the next-state varint, then the port's unpacking and the frame. */
  method FinishRead(s: ByteStream, protocolVersion: nat, serverAddress: seq<byte>, port: seq<byte>)
    returns (r: Result<(ConnectionFrame, seq<byte>), FrameError>)
    requires s.Valid()
    modifies s
    ensures s.Valid()
    ensures var v4 := ReadVarIntSpec(old(s.Remaining()));
      r == FinishFrame(protocolVersion, serverAddress, port, v4).result && s.pos == old(s.pos) + v4.used
  {
    var p4 := ReadVarInt(s);
    if p4.Failure? {
      return Failure(p4.error);
    }
    if |port| != 2 {
      return Failure(BadPortField);
    }
    var frame := ConnectionFrame(protocolVersion, serverAddress, port[0] as nat * 256 + port[1] as nat);
    return Success((frame, serverAddress + port + p4.value.1));
  }
}
