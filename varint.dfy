/** The protocol's variable-length integer: little-endian groups of seven bits, the high bit
    of each byte marking that another byte follows. Shared by the Go stream reader
    (pkg/reader/minecraft_reader.go), the Python reader (router/minecraft_protocol.py) and
    Go's `binary.ReadUvarint` as used by pkg/router.go. */
module VarInt {
  import opened Streams

  /** `b & 0x7F`, the seven payload bits of a byte. */
  function Segment(b: byte): nat
  {
    b as nat % 128
  }

  /** A byte without the continuation bit is its own segment. */
  lemma SegmentOfFinal(b: byte)
    requires !Continues(b)
    ensures Segment(b) == b as nat
  {
  }

  /** `b & 0x80 != 0`, the continuation bit. */
  predicate Continues(b: byte)
  {
    b >= 128
  }

  function Pow2(n: nat): (p: nat)
    ensures p >= 1
  {
    if n == 0 then 1 else 2 * Pow2(n - 1)
  }

  /** The sum over k of `Segment(bs[k]) << 7*k`. The groups never overlap, so this sum is
      also the bitwise OR the sources accumulate. */
  function Value(bs: seq<byte>): nat
  {
    if bs == [] then 0 else Segment(bs[0]) + 128 * Value(bs[1..])
  }

  lemma {:induction false} Pow2Add7(n: nat)
    ensures Pow2(n + 7) == 128 * Pow2(n)
  {
    if n > 0 {
      Pow2Add7(n - 1);
    } else {
      assert Pow2(1) == 2 && Pow2(2) == 4 && Pow2(3) == 8 && Pow2(4) == 16;
      assert Pow2(5) == 32 && Pow2(6) == 64 && Pow2(7) == 128;
    }
  }

  /** Accumulating one more byte adds its segment shifted left by seven bits per byte
      already read: the step both readers' loops take. */
  lemma {:induction false} ValueAppend(bs: seq<byte>, b: byte)
    ensures Value(bs + [b]) == Value(bs) + Segment(b) * Pow2(7 * |bs|)
  {
    if bs == [] {
      assert [b][1..] == [];
    } else {
      assert (bs + [b])[1..] == bs[1..] + [b];
      ValueAppend(bs[1..], b);
      Pow2Add7(7 * (|bs| - 1));
      Scale(128, Value(bs[1..]), Segment(b), Pow2(7 * (|bs| - 1)));
    }
  }

  /** `a * (x + y * p) == a * x + y * (a * p)`: the arithmetic of one step of `ValueAppend`. */
  lemma Scale(a: nat, x: nat, y: nat, p: nat)
    ensures a * (x + y * p) == a * x + y * (a * p)
  {
    calc {
      a * (x + y * p);
      a * x + a * (y * p);
      a * x + y * (a * p);
    }
  }

  /** One more byte `b`, read after `bytes` from a source delivering `rest`: the bytes read
      so far stay a prefix of `rest`, and the value grows by the new group. */
  lemma NextByte(rest: seq<byte>, bytes: seq<byte>, b: byte)
    requires |bytes| < |rest| && bytes == rest[..|bytes|] && rest[|bytes|..][0] == b
    ensures rest[..|bytes| + 1] == bytes + [b]
    ensures rest[|bytes|..][1..] == rest[|bytes| + 1..]
    ensures Value(bytes + [b]) == Value(bytes) + Segment(b) * Pow2(7 * |bytes|)
  {
    assert rest[|bytes|] == b;
    assert rest[..|bytes| + 1] == bytes + [b] by {
      assert rest[..|bytes| + 1] == rest[..|bytes|] + [rest[|bytes|]];
    }
    ValueAppend(bytes, b);
  }

  /** `n` groups hold a value below 2^(7n). */
  lemma {:induction false} ValueBound(bs: seq<byte>)
    ensures Value(bs) < Pow2(7 * |bs|)
  {
    if bs != [] {
      ValueBound(bs[1..]);
      Pow2Add7(7 * (|bs| - 1));
    }
  }

  /** The index of the first byte without the continuation bit, or `|s|` when there is none. */
  function TerminatorIndex(s: seq<byte>): (t: nat)
    ensures t <= |s|
  {
    if s == [] then 0
    else if !Continues(s[0]) then 0
    else 1 + TerminatorIndex(s[1..])
  }

  /** Every byte before the terminator continues, and the terminator does not. */
  lemma {:induction false} TerminatorIndexMeaning(s: seq<byte>)
    ensures forall k :: 0 <= k < TerminatorIndex(s) ==> Continues(s[k])
    ensures TerminatorIndex(s) < |s| ==> !Continues(s[TerminatorIndex(s)])
  {
    if s != [] && Continues(s[0]) {
      TerminatorIndexMeaning(s[1..]);
      forall k | 0 <= k < TerminatorIndex(s) ensures Continues(s[k]) {
        if k > 0 { assert s[k] == s[1..][k - 1]; }
      }
    }
  }

  /** After `i` continuation bytes the terminator, if any, lies at `i` or later. */
  lemma TerminatorAfter(s: seq<byte>, i: nat)
    requires i <= |s| && forall k :: 0 <= k < i ==> Continues(s[k])
    ensures i <= TerminatorIndex(s)
  {
    TerminatorIndexMeaning(s);
  }

  /** A byte without the continuation bit after `i` continuation bytes is the terminator. */
  lemma TerminatorAt(s: seq<byte>, i: nat)
    requires i < |s| && !Continues(s[i]) && forall k :: 0 <= k < i ==> Continues(s[k])
    ensures TerminatorIndex(s) == i
  {
    TerminatorIndexMeaning(s);
  }

  /** How a varint read with a limit of `limit` bytes ends on input `rest`. */
  datatype Scan =
    | Complete(len: nat)    // the first `len` bytes form a varint
    | Truncated(len: nat)   // the input ends after `len` continuation bytes
    | Overlong              // `limit` continuation bytes in a row

  function ScanVarInt(rest: seq<byte>, limit: nat): Scan
  {
    var t := TerminatorIndex(rest);
    if t < limit then
      if t < |rest| then Complete(t + 1) else Truncated(t)
    else Overlong
  }

  /** The three ends of a varint read, each characterised by the bytes read. */
  lemma ScanVarIntMeaning(rest: seq<byte>, limit: nat)
    ensures var r := ScanVarInt(rest, limit);
      && (r.Complete? ==>
            1 <= r.len <= limit && r.len <= |rest| && !Continues(rest[r.len - 1])
            && forall k :: 0 <= k < r.len - 1 ==> Continues(rest[k]))
      && (r.Truncated? ==>
            r.len == |rest| < limit && forall k :: 0 <= k < |rest| ==> Continues(rest[k]))
      && (r.Overlong? ==>
            limit <= |rest| && forall k :: 0 <= k < limit ==> Continues(rest[k]))
  {
    TerminatorIndexMeaning(rest);
  }

  /** The three ends of a scan, each from the bytes seen so far. */
  lemma ScanEndsComplete(rest: seq<byte>, i: nat, limit: nat)
    requires i < |rest| && i < limit && !Continues(rest[i])
    requires forall k :: 0 <= k < i ==> Continues(rest[k])
    ensures ScanVarInt(rest, limit) == Complete(i + 1)
  {
    TerminatorAt(rest, i);
  }

  lemma ScanEndsTruncated(rest: seq<byte>, limit: nat)
    requires |rest| < limit && forall k :: 0 <= k < |rest| ==> Continues(rest[k])
    ensures ScanVarInt(rest, limit) == Truncated(|rest|)
  {
    TerminatorAfter(rest, |rest|);
  }

  lemma ScanEndsOverlong(rest: seq<byte>, limit: nat)
    requires limit <= |rest| && forall k :: 0 <= k < limit ==> Continues(rest[k])
    ensures ScanVarInt(rest, limit) == Overlong
  {
    TerminatorAfter(rest, limit);
  }

  /** The shortest encoding of `v`. */
  function Encode(v: nat): seq<byte>
    decreases v
  {
    if v < 128 then [v as byte] else [(v % 128 + 128) as byte] + Encode(v / 128)
  }

  /** Decoding an encoding, whatever follows it, stops at its last byte and gives `v` back. */
  lemma EncodeDecodes(v: nat, tail: seq<byte>)
    ensures |Encode(v)| >= 1
    ensures TerminatorIndex(Encode(v) + tail) == |Encode(v)| - 1
    ensures Value(Encode(v)) == v
  {
    EncodeTerminates(v, tail);
    EncodeValue(v);
  }

  lemma {:induction false} EncodeTerminates(v: nat, tail: seq<byte>)
    ensures |Encode(v)| >= 1
    ensures TerminatorIndex(Encode(v) + tail) == |Encode(v)| - 1
    decreases v
  {
    if v >= 128 {
      var head := (v % 128 + 128) as byte;
      EncodeTerminates(v / 128, tail);
      assert Encode(v) + tail == [head] + (Encode(v / 128) + tail);
    }
  }

  lemma {:induction false} EncodeValue(v: nat)
    ensures Value(Encode(v)) == v
    decreases v
  {
    if v >= 128 {
      EncodeValue(v / 128);
      assert Encode(v)[1..] == Encode(v / 128);
    }
  }

  /** An encoding fits in `k` bytes exactly when the value is below 2^(7k). */
  lemma {:induction false} EncodeLength(v: nat, k: nat)
    requires k >= 1
    ensures v < Pow2(7 * k) <==> |Encode(v)| <= k
    decreases v
  {
    Pow2Add7(7 * (k - 1));
    if v >= 128 {
      if k > 1 {
        EncodeLength(v / 128, k - 1);
      } else {
        assert Pow2(7) == 128;
        EncodeTerminates(v / 128, []);
      }
    } else if k > 1 {
      assert Pow2(7 * k) >= 128 by {
        Pow2Monotone(7, 7 * k);
        assert Pow2(7) == 128;
      }
    } else {
      assert Pow2(7) == 128;
    }
  }

  lemma {:induction false} Pow2Monotone(m: nat, n: nat)
    requires m <= n
    ensures Pow2(m) <= Pow2(n)
    decreases n
  {
    if m < n {
      Pow2Monotone(m, n - 1);
    }
  }

  /** Round trip: any value below 2^(7*limit) is read back together with exactly its
      encoding, whatever bytes follow. */
  lemma ScanEncoded(v: nat, tail: seq<byte>, limit: nat)
    requires limit >= 1 && v < Pow2(7 * limit)
    ensures ScanVarInt(Encode(v) + tail, limit) == Complete(|Encode(v)|)
    ensures (Encode(v) + tail)[..|Encode(v)|] == Encode(v)
    ensures Value(Encode(v)) == v
  {
    EncodeDecodes(v, tail);
    EncodeLength(v, limit);
  }
}
