/** Go's `encoding/binary.ReadUvarint` as pkg/router.go uses it: an unsigned LEB128 read
    of at most ten bytes from a `bytes.Reader`. On an error it still returns the value
    accumulated so far, which pkg/router.go:85 relies on when it ignores the error. */
module Uvarint {
  import opened Wrappers
  import opened Streams
  import opened VarInt

  /** `binary.MaxVarintLen64`: a 64-bit value takes at most ten groups. */
  const MaxVarintLen64: nat := 10

  datatype UvarintError =
    | Eof            // `io.EOF`: the reader was empty
    | UnexpectedEof  // `io.ErrUnexpectedEOF`: the reader ran dry inside the varint
    | Overflow       // the varint does not fit in 64 bits

  /** What `ReadUvarint` returns on a reader holding `rest`, and how many bytes it took. */
  datatype UvarintRead = UvarintRead(value: nat, error: Option<UvarintError>, used: nat)

  /** `uint64(b & 0x7f) << s` for a shift `s` of at most 63: only the shift by 63 loses
      bits off the top of the 64-bit word, and keeps the lowest bit of the group. */
  function ShiftedSegment(b: byte, s: nat): nat
    requires s <= 63
  {
    if s == 63 then (Segment(b) % 2) * Pow2(63) else Segment(b) * Pow2(s)
  }

  function UvarintSpec(rest: seq<byte>): (r: UvarintRead)
    ensures r.used <= MaxVarintLen64 && r.used <= |rest|
  {
    var t := TerminatorIndex(rest);
    if t >= MaxVarintLen64 then
      UvarintRead(Value(rest[..9]) + ShiftedSegment(rest[9], 63), Some(Overflow), MaxVarintLen64)
    else if t == |rest| then
      UvarintRead(Value(rest[..t]), Some(if t == 0 then Eof else UnexpectedEof), t)
    else if t == MaxVarintLen64 - 1 && rest[t] > 1 then
      UvarintRead(Value(rest[..t]), Some(Overflow), MaxVarintLen64)
    else
      UvarintRead(Value(rest[..t + 1]), None, t + 1)
  }

  /** A successful read stops at the first byte without the continuation bit, within ten
      bytes, and returns the value of exactly the bytes consumed; it fails with `Eof` on an
      empty reader, with `UnexpectedEof` when the reader ends inside the varint, and with
      `Overflow` on ten continuation bytes or a tenth byte above 1. */
  lemma UvarintMeaning(rest: seq<byte>)
    ensures var r := UvarintSpec(rest);
      && (r.error.None? <==>
            var t := TerminatorIndex(rest);
            t < MaxVarintLen64 && t < |rest| && (t == MaxVarintLen64 - 1 ==> rest[t] <= 1))
      && (r.error.None? ==>
            1 <= r.used && !Continues(rest[r.used - 1]) && r.value == Value(rest[..r.used])
            && forall k :: 0 <= k < r.used - 1 ==> Continues(rest[k]))
      && (r.error == Some(Eof) <==> rest == [])
      && (r.error == Some(UnexpectedEof) <==>
            0 < |rest| < MaxVarintLen64 && forall k :: 0 <= k < |rest| ==> Continues(rest[k]))
      && (r.error == Some(Overflow) <==>
            MaxVarintLen64 <= |rest|
            && (forall k :: 0 <= k < MaxVarintLen64 - 1 ==> Continues(rest[k]))
            && (Continues(rest[9]) || rest[9] > 1))
  {
    UvarintSucceeds(rest);
    UvarintEnds(rest);
    UvarintOverflows(rest);
  }

  /** The successful case: a terminator within ten bytes, the tenth at most 1. */
  lemma UvarintSucceeds(rest: seq<byte>)
    ensures var r := UvarintSpec(rest);
      && (r.error.None? <==>
            var t := TerminatorIndex(rest);
            t < MaxVarintLen64 && t < |rest| && (t == MaxVarintLen64 - 1 ==> rest[t] <= 1))
      && (r.error.None? ==>
            1 <= r.used && !Continues(rest[r.used - 1]) && r.value == Value(rest[..r.used])
            && forall k :: 0 <= k < r.used - 1 ==> Continues(rest[k]))
  {
    var t := TerminatorIndex(rest);
    TerminatorIndexMeaning(rest);
    if t < MaxVarintLen64 && t < |rest| {
      SpecAtTerminator(rest, t);
    }
  }

  /** The cases that end at the end of the reader. */
  lemma UvarintEnds(rest: seq<byte>)
    ensures var r := UvarintSpec(rest);
      && (r.error == Some(Eof) <==> rest == [])
      && (r.error == Some(UnexpectedEof) <==>
            0 < |rest| < MaxVarintLen64 && forall k :: 0 <= k < |rest| ==> Continues(rest[k]))
  {
    var t := TerminatorIndex(rest);
    TerminatorIndexMeaning(rest);
    if rest == [] {
      assert t == 0;
    }
    if 0 < |rest| < MaxVarintLen64 && forall k :: 0 <= k < |rest| ==> Continues(rest[k]) {
      TerminatorAfter(rest, |rest|);
    }
  }

  /** The overflow cases: no terminator among the first ten bytes, or a tenth byte above 1. */
  lemma UvarintOverflows(rest: seq<byte>)
    ensures UvarintSpec(rest).error == Some(Overflow) <==>
            MaxVarintLen64 <= |rest|
            && (forall k :: 0 <= k < MaxVarintLen64 - 1 ==> Continues(rest[k]))
            && (Continues(rest[9]) || rest[9] > 1)
  {
    TerminatorIndexMeaning(rest);
    if MaxVarintLen64 <= |rest| && (forall k :: 0 <= k < MaxVarintLen64 - 1 ==> Continues(rest[k])) {
      TerminatorAfter(rest, MaxVarintLen64 - 1);
    }
  }

  /** A value without error always fits in 64 bits. */
  lemma UvarintFits(rest: seq<byte>)
    ensures var r := UvarintSpec(rest);
      r.error.None? ==> r.value < Pow2(64)
  {
    var r := UvarintSpec(rest);
    var t := TerminatorIndex(rest);
    TerminatorIndexMeaning(rest);
    if t < MaxVarintLen64 && t < |rest| && (t == MaxVarintLen64 - 1 ==> rest[t] <= 1) {
      SpecAtTerminator(rest, t);
      assert r.value == Value(rest[..t + 1]);
      if t < MaxVarintLen64 - 1 {
        ValueBound(rest[..t + 1]);
        Pow2Monotone(7 * (t + 1), 64);
      } else {
        TenthGroupFits(rest[..t + 1]);
      }
    }
  }

  lemma TenthGroupFits(bs: seq<byte>)
    requires |bs| == MaxVarintLen64 && bs[9] <= 1
    ensures Value(bs) < Pow2(64)
  {
    var front := bs[..9];
    assert bs == front + [bs[9]];
    LastBitFits(front, bs[9]);
  }

  /** Groups followed by a last group of one bit fit in one bit more than the groups. */
  lemma LastBitFits(bs: seq<byte>, b: byte)
    requires b <= 1
    ensures Value(bs + [b]) < Pow2(7 * |bs| + 1)
  {
    var n := 7 * |bs|;
    ValueAppend(bs, b);
    ValueBound(bs);
    SegmentOfFinal(b);
    BitOnTop(Value(bs), b as nat, Pow2(n));
    assert Pow2(n + 1) == 2 * Pow2(n);
  }

  lemma BitOnTop(v: nat, g: nat, p: nat)
    requires v < p && g <= 1
    ensures v + g * p < 2 * p
  {
    if g == 0 {
      assert g * p == 0;
    } else {
      assert g * p == p;
    }
  }

  /** Round trip: a value below 2^63 is read back from its encoding, whatever follows. */
  lemma UvarintOfEncode(v: nat, tail: seq<byte>)
    requires v < Pow2(63)
    ensures UvarintSpec(Encode(v) + tail) == UvarintRead(v, None, |Encode(v)|)
  {
    var e := Encode(v);
    var rest := e + tail;
    EncodeDecodes(v, tail);
    assert Pow2(63) == Pow2(7 * 9);
    EncodeLength(v, 9);
    TerminatorIndexMeaning(rest);
    SpecAtTerminator(rest, |e| - 1);
    assert rest[..|e|] == e;
  }

  /** The read ends at a terminator `rest[i]` after `i` continuation bytes. */
  lemma SpecAtTerminator(rest: seq<byte>, i: nat)
    requires i < MaxVarintLen64 && i < |rest| && !Continues(rest[i])
    requires forall k :: 0 <= k < i ==> Continues(rest[k])
    ensures UvarintSpec(rest)
         == if i == MaxVarintLen64 - 1 && rest[i] > 1 then UvarintRead(Value(rest[..i]), Some(Overflow), MaxVarintLen64)
            else UvarintRead(Value(rest[..i + 1]), None, i + 1)
  {
    TerminatorAt(rest, i);
  }

  /** The read ends with the reader, after `|rest|` continuation bytes. */
  lemma SpecAtEnd(rest: seq<byte>)
    requires |rest| < MaxVarintLen64 && forall k :: 0 <= k < |rest| ==> Continues(rest[k])
    ensures UvarintSpec(rest)
         == UvarintRead(Value(rest), Some(if rest == [] then Eof else UnexpectedEof), |rest|)
  {
    TerminatorAfter(rest, |rest|);
    assert rest[..|rest|] == rest;
  }

  /** The read ends after ten continuation bytes. */
  lemma SpecOverlong(rest: seq<byte>)
    requires MaxVarintLen64 <= |rest| && forall k :: 0 <= k < MaxVarintLen64 ==> Continues(rest[k])
    ensures UvarintSpec(rest)
         == UvarintRead(Value(rest[..9]) + ShiftedSegment(rest[9], 63), Some(Overflow), MaxVarintLen64)
  {
    TerminatorAfter(rest, MaxVarintLen64);
  }

  /** The accumulator after `i` bytes: the value of the groups, the tenth shifted by 63. */
  function Accumulated(rest: seq<byte>, i: nat): nat
    requires i <= MaxVarintLen64 && i <= |rest|
  {
    if i < MaxVarintLen64 then Value(rest[..i]) else Value(rest[..9]) + ShiftedSegment(rest[9], 63)
  }

  /** One more group OR-ed into the accumulator. */
  lemma AccumulateStep(rest: seq<byte>, i: nat)
    requires i < MaxVarintLen64 && i < |rest|
    ensures Accumulated(rest, i + 1) == Accumulated(rest, i) + ShiftedSegment(rest[i], 7 * i)
  {
    if i + 1 < MaxVarintLen64 {
      assert rest[..i + 1] == rest[..i] + [rest[i]];
      ValueAppend(rest[..i], rest[i]);
    }
  }

  /** A terminating group adds its value shifted into place. */
  lemma TerminatorValue(rest: seq<byte>, i: nat)
    requires i < MaxVarintLen64 && i < |rest| && !Continues(rest[i])
    ensures Value(rest[..i + 1]) == Accumulated(rest, i) + rest[i] as nat * Pow2(7 * i)
  {
    assert rest[..i + 1] == rest[..i] + [rest[i]];
    ValueAppend(rest[..i], rest[i]);
    SegmentOfFinal(rest[i]);
  }

  /** `binary.ReadUvarint(r)`: one `ReadByte` per group, OR-ing `uint64(b&0x7f) << s`
      into `x`. */
  method ReadUvarint(r: ByteStream) returns (x: nat, err: Option<UvarintError>)
    requires r.Valid()
    modifies r
    ensures r.Valid()
    ensures var spec := UvarintSpec(old(r.Remaining()));
      x == spec.value && err == spec.error
      && r.pos == old(r.pos) + spec.used && r.Remaining() == old(r.Remaining())[spec.used..]
  {
    ghost var rest := r.Remaining();
    x := 0;
    var s := 0;
    for i := 0 to MaxVarintLen64
      invariant r.Valid()
      invariant s == 7 * i && i <= |rest|
      invariant r.pos == old(r.pos) + i && r.Remaining() == rest[i..]
      invariant forall k :: 0 <= k < i ==> Continues(rest[k])
      invariant x == Accumulated(rest, i)
    {
      var b, eof := r.ReadByte();
      if eof {
        assert rest[..i] == rest;
        SpecAtEnd(rest);
        if i > 0 {
          return x, Some(UnexpectedEof);
        }
        return x, Some(Eof);
      }
      assert b == rest[i];
      if b < 128 {
        SpecAtTerminator(rest, i);
        if i == MaxVarintLen64 - 1 && b > 1 {
          return x, Some(Overflow);
        }
        TerminatorValue(rest, i);
        x := x + b as nat * Pow2(s);
        return x, None;
      }
      AccumulateStep(rest, i);
      x := x + ShiftedSegment(b, s);
      s := s + 7;
    }
    SpecOverlong(rest);
    err := Some(Overflow);
  }
}
