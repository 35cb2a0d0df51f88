/** Bytes and a cursor-advancing byte source.

    `ByteStream` stands for every byte source the core reads from: Go's `bytes.Reader`
    (pkg/router.go), the `io.Reader` wrapped by `MinecraftPacketReader`
    (pkg/reader/minecraft_reader.go, given `bytes.Reader` behaviour) and the client socket
    of router/minecraft_protocol.py (`recv`). The bytes still to come are fixed when the
    stream is created; reading advances the cursor. */
module Streams {

  newtype byte = b: int | 0 <= b < 256

  function Min(a: nat, b: nat): nat { if a <= b then a else b }

  /** `n` zero bytes: what a Go `make([]byte, n)` holds before anything is read into it. */
  function Zeros(n: nat): (z: seq<byte>)
    ensures |z| == n && forall i :: 0 <= i < n ==> z[i] == 0
  {
    seq(n, _ => 0 as byte)
  }

  /** A 16-bit port as the two big-endian bytes a client sends. */
  function PortBytes(port: nat): (b: seq<byte>)
    requires port < 65536
    ensures |b| == 2 && b[0] as nat * 256 + b[1] as nat == port
  {
    [(port / 256) as byte, (port % 256) as byte]
  }

  /** Concatenations of byte strings regroup freely. */
  lemma Assoc(a: seq<byte>, b: seq<byte>, c: seq<byte>)
    ensures a + b + c == a + (b + c)
  {
  }

  class ByteStream {
    const data: seq<byte>
    var pos: nat

    ghost predicate Valid()
      reads this
    {
      pos <= |data|
    }

    /** The bytes not yet consumed. */
    function Remaining(): seq<byte>
      reads this
      requires Valid()
    {
      data[pos..]
    }

    constructor (bytes: seq<byte>)
      ensures Valid() && data == bytes && pos == 0 && Remaining() == bytes
    {
      data := bytes;
      pos := 0;
    }

    /** One byte, or end of stream (`eof`) when nothing remains; `bytes.Reader.ReadByte`,
        and a one-byte `Read` or `recv(1)`. */
    method ReadByte() returns (b: byte, eof: bool)
      requires Valid()
      modifies this`pos
      ensures Valid()
      ensures eof == (old(Remaining()) == [])
      ensures eof ==> b == 0 && pos == old(pos)
      ensures !eof ==> b == old(Remaining())[0] && pos == old(pos) + 1
      ensures Remaining() == if eof then old(Remaining()) else old(Remaining())[1..]
    {
      if pos == |data| {
        b, eof := 0, true;
      } else {
        b, eof := data[pos], false;
        pos := pos + 1;
      }
    }

    /** Up to `n` bytes: `bytes.Reader.Read` into an `n`-byte slice, which reports end of
        stream (`eof`) exactly when nothing remains (even for `n == 0`) and otherwise copies
        as many bytes as fit; also Python's `recv(n)`, which then returns `b''`. */
    method Read(n: nat) returns (got: seq<byte>, eof: bool)
      requires Valid()
      modifies this`pos
      ensures Valid()
      ensures eof == (old(Remaining()) == [])
      ensures got == old(Remaining())[..Min(n, |old(Remaining())|)]
      ensures pos == old(pos) + |got|
      ensures Remaining() == old(Remaining())[|got|..]
    {
      eof := pos == |data|;
      var k := Min(n, |data| - pos);
      got := data[pos..pos + k];
      pos := pos + k;
    }
  }
}
