/** The Go stream reader of pkg/reader/minecraft_reader.go: a varint of at most five bytes
    and a length-prefixed packet, read from a wrapped byte source. */
module MinecraftReader {
  import opened Wrappers
  import opened Streams
  import opened VarInt

  const MaxBytesVarInt: nat := 5

  /** What `readVarInt` returns, Go's `(int, []byte)` with a nil slice as `None`, and how
      many bytes it took from the source. */
  datatype VarIntRead = VarIntRead(value: int, data: Option<seq<byte>>, used: nat)

  /** `readVarInt` on a source holding `rest`. */
  function ReadVarIntSpec(rest: seq<byte>): (r: VarIntRead)
    ensures r.used <= MaxBytesVarInt && r.used <= |rest|
  {
    match ScanVarInt(rest, MaxBytesVarInt)
    case Complete(n) => VarIntRead(Value(rest[..n]), Some(rest[..n]), n)
    case Truncated(n) => VarIntRead(0, None, n)
    case Overlong => VarIntRead(-1, None, MaxBytesVarInt)
  }

  /** The three ends of `readVarInt`, each characterised by the bytes it read. */
  lemma ReadVarIntMeaning(rest: seq<byte>)
    ensures var r := ReadVarIntSpec(rest);
      // a terminating byte within five: exactly the bytes up to it, and their value
      && (r.data.Some? ==>
            1 <= r.used && r.data.value == rest[..r.used] && r.value == Value(rest[..r.used])
            && !Continues(rest[r.used - 1]) && forall k :: 0 <= k < r.used - 1 ==> Continues(rest[k]))
      // the source ran dry before a terminating byte: (0, nil)
      && (r.data.None? && r.value == 0 <==>
            |rest| < MaxBytesVarInt && r.used == |rest| && forall k :: 0 <= k < |rest| ==> Continues(rest[k]))
      // five continuation bytes: (-1, nil)
      && (r.data.None? && r.value == -1 <==>
            MaxBytesVarInt <= |rest| && r.used == MaxBytesVarInt
            && forall k :: 0 <= k < MaxBytesVarInt ==> Continues(rest[k]))
      && (r.data.None? ==> r.value == 0 || r.value == -1)
  {
    ScanVarIntMeaning(rest, MaxBytesVarInt);
  }

  /** Round trip: every value that fits in five groups (below 2^35) is read back, with its
      encoding as the returned bytes, whatever follows it. */
  lemma ReadVarIntOfEncode(v: nat, tail: seq<byte>)
    requires v < Pow2(7 * MaxBytesVarInt)
    ensures ReadVarIntSpec(Encode(v) + tail) == VarIntRead(v, Some(Encode(v)), |Encode(v)|)
  {
    ScanEncoded(v, tail, MaxBytesVarInt);
  }

  lemma SpecTruncated(rest: seq<byte>)
    requires |rest| < MaxBytesVarInt && forall k :: 0 <= k < |rest| ==> Continues(rest[k])
    ensures ReadVarIntSpec(rest) == VarIntRead(0, None, |rest|)
  {
    ScanEndsTruncated(rest, MaxBytesVarInt);
  }

  lemma SpecComplete(rest: seq<byte>, i: nat)
    requires i < |rest| && i < MaxBytesVarInt && !Continues(rest[i])
    requires forall k :: 0 <= k < i ==> Continues(rest[k])
    ensures ReadVarIntSpec(rest) == VarIntRead(Value(rest[..i + 1]), Some(rest[..i + 1]), i + 1)
  {
    ScanEndsComplete(rest, i, MaxBytesVarInt);
  }

  lemma SpecOverlong(rest: seq<byte>)
    requires MaxBytesVarInt <= |rest| && forall k :: 0 <= k < MaxBytesVarInt ==> Continues(rest[k])
    ensures ReadVarIntSpec(rest) == VarIntRead(-1, None, MaxBytesVarInt)
  {
    ScanEndsOverlong(rest, MaxBytesVarInt);
  }

  datatype PacketError =
    | VarIntUnreadable   // "unable to read varint"
    | ReadFailed         // the payload read reported an error (end of stream)
    | ShortPacket        // "cannot read entire packet"

  datatype PacketRead = PacketRead(result: Result<seq<byte>, PacketError>, used: nat)

  /** `ReadPacket` on a source holding `rest`. */
  function ReadPacketSpec(rest: seq<byte>): (r: PacketRead)
    ensures r.used <= |rest|
  {
    var v := ReadVarIntSpec(rest);
    if v.data.None? then PacketRead(Failure(VarIntUnreadable), v.used)
    else
      var length := v.value as nat;
      var after := rest[v.used..];
      if after == [] then PacketRead(Failure(ReadFailed), v.used)
      else
        var payload := after[..Min(length, |after|)];
        if |payload| != length then PacketRead(Failure(ShortPacket), v.used + |payload|)
        else PacketRead(Success(v.data.value + payload), v.used + |payload|)
  }

  /** `ReadPacket` fails exactly when the length varint failed, the payload read reported
      end of stream, or fewer than `length` payload bytes were there; otherwise it returns
      the length prefix followed by exactly `length` payload bytes, which is all it consumed. */
  lemma ReadPacketOutcomes(rest: seq<byte>)
    ensures var v := ReadVarIntSpec(rest); var r := ReadPacketSpec(rest);
      && (v.data.None? ==> r.result == Failure(VarIntUnreadable))
      && (v.data.Some? ==>
            var after := rest[v.used..];
            && (after == [] ==> r.result == Failure(ReadFailed))
            && (after != [] && |after| < v.value ==> r.result == Failure(ShortPacket))
            && (r.result.Success? <==> after != [] && v.value <= |after|)
            && (r.result.Success? ==>
                  r.result.value == v.data.value + after[..v.value]
                  && r.result.value == rest[..r.used]
                  && r.used == v.used + v.value))
  {
    var v := ReadVarIntSpec(rest);
    if v.data.Some? {
      var r := ReadPacketSpec(rest);
      if r.result.Success? {
        assert rest[..v.used] + rest[v.used..][..v.value] == rest[..v.used + v.value];
      }
    }
  }

  /** Round trip: a packet framed by its length is read back whole. A zero-length packet
      at the very end of the source is the exception: the empty payload read reports end
      of stream. */
  lemma ReadPacketOfFramed(payload: seq<byte>, tail: seq<byte>)
    requires |payload| < Pow2(7 * MaxBytesVarInt)
    requires payload + tail != []
    ensures ReadPacketSpec(Encode(|payload|) + payload + tail)
      == PacketRead(Success(Encode(|payload|) + payload), |Encode(|payload|)| + |payload|)
  {
    var e := Encode(|payload|);
    assert e + payload + tail == e + (payload + tail);
    ReadVarIntOfEncode(|payload|, payload + tail);
    assert (e + payload + tail)[|e|..] == payload + tail;
    assert (payload + tail)[..|payload|] == payload;
  }

  /** `MinecraftPacketReader`: a reader over a byte source. The unused `buf` and
      `readHead` fields of the source type are not modelled. */
  class MinecraftPacketReader {
    const reader: ByteStream

    /** `NewMinecraftReader`. */
    constructor (r: ByteStream)
      ensures reader == r
    {
      reader := r;
    }

    /** `readVarInt`: reads one byte at a time into a five-byte buffer and accumulates
        `(b & 0x7F) << 7*i` until a byte without the continuation bit. */
    method ReadVarInt() returns (value: int, data: Option<seq<byte>>)
      requires reader.Valid()
      modifies reader
      ensures reader.Valid()
      ensures var spec := ReadVarIntSpec(old(reader.Remaining()));
        value == spec.value && data == spec.data && reader.pos == old(reader.pos) + spec.used
    {
      ghost var rest := reader.Remaining();
      var result := 0;
      var buf := new byte[MaxBytesVarInt];
      for i := 0 to MaxBytesVarInt
        invariant reader.Valid() && reader.pos == old(reader.pos) + i
        invariant i <= |rest| && reader.Remaining() == rest[i..]
        invariant buf[..i] == rest[..i]
        invariant forall k :: 0 <= k < i ==> Continues(rest[k])
        invariant result == Value(rest[..i])
      {
        var b, eof := reader.ReadByte();
        if eof {
          SpecTruncated(rest);
          return 0, None;
        }
        NextByte(rest, rest[..i], b);
        buf[i] := b;
        result := result + Segment(b) * Pow2(7 * i);
        if !Continues(b) {
          assert buf[..i + 1] == rest[..i + 1];
          SpecComplete(rest, i);
          return result, Some(buf[..i + 1]);
        }
      }
      SpecOverlong(rest);
      return -1, None;
    }

    /** `ReadPacket`: the length varint, then one read of `length` bytes. */
    method ReadPacket() returns (r: Result<seq<byte>, PacketError>)
      requires reader.Valid()
      modifies reader
      ensures reader.Valid()
      ensures var spec := ReadPacketSpec(old(reader.Remaining()));
        r == spec.result && reader.pos == old(reader.pos) + spec.used
    {
      ghost var rest := reader.Remaining();
      var length, data := ReadVarInt();
      if data.None? {
        return Failure(VarIntUnreadable);
      }
      assert reader.Remaining() == rest[reader.pos - old(reader.pos)..];
      var packet, eof := reader.Read(length as nat);
      if eof {
        return Failure(ReadFailed);
      }
      if |packet| != length {
        return Failure(ShortPacket);
      }
      return Success(data.value + packet);
    }
  }
}
