/** Decimal numbers in text (Go's `%d` and `strconv.ParseUint`, Python's f-strings), and the
    byte view of strings. Go strings are byte strings; the model writes them as `string` with
    one character per byte. */
module Text {
  import opened Wrappers
  import opened Streams

  predicate IsDigit(c: char)
  {
    '0' <= c <= '9'
  }

  predicate AllDigits(s: string)
  {
    forall i :: 0 <= i < |s| ==> IsDigit(s[i])
  }

  function DigitValue(c: char): nat
    requires IsDigit(c)
  {
    c as nat - '0' as nat
  }

  function DigitChar(d: nat): (c: char)
    requires d < 10
    ensures IsDigit(c) && DigitValue(c) == d
  {
    ('0' as nat + d) as char
  }

  /** Decimal text of `n`, no leading zeros: Go's `%d`, Python's `f"{n}"`. */
  function NatToString(n: nat): string
    decreases n
  {
    if n < 10 then [DigitChar(n)] else NatToString(n / 10) + [DigitChar(n % 10)]
  }

  /** Python's `f"{i}"` for any integer. */
  function IntToString(i: int): string
  {
    if i < 0 then "-" + NatToString(-i) else NatToString(i)
  }

  /** The number denoted by the digits `s` read after an already accumulated `acc`. */
  function DigitsValueFrom(acc: nat, s: string): nat
    requires AllDigits(s)
    decreases |s|
  {
    if s == [] then acc else DigitsValueFrom(acc * 10 + DigitValue(s[0]), s[1..])
  }

  function DigitsValue(s: string): nat
    requires AllDigits(s)
  {
    DigitsValueFrom(0, s)
  }

  lemma {:induction false} DigitsValueAppend(acc: nat, s: string, c: char)
    requires AllDigits(s) && IsDigit(c)
    ensures AllDigits(s + [c])
    ensures DigitsValueFrom(acc, s + [c]) == DigitsValueFrom(acc, s) * 10 + DigitValue(c)
    decreases |s|
  {
    assert AllDigits(s + [c]) by {
      forall i | 0 <= i < |s + [c]| ensures IsDigit((s + [c])[i]) {
        if i < |s| { assert (s + [c])[i] == s[i]; }
      }
    }
    if s == [] {
      assert [c][1..] == [];
    } else {
      assert (s + [c])[1..] == s[1..] + [c];
      DigitsValueAppend(acc * 10 + DigitValue(s[0]), s[1..], c);
    }
  }

  lemma {:induction false} DigitsValueFromGrows(acc: nat, s: string)
    requires AllDigits(s)
    ensures DigitsValueFrom(acc, s) >= acc
    decreases |s|
  {
    if s != [] {
      DigitsValueFromGrows(acc * 10 + DigitValue(s[0]), s[1..]);
    }
  }

  /** `NatToString` writes digits only, and they denote `n`. */
  lemma {:induction false} NatToStringDigits(n: nat)
    ensures |NatToString(n)| >= 1 && AllDigits(NatToString(n))
    ensures DigitsValue(NatToString(n)) == n
    decreases n
  {
    if n < 10 {
      var t := NatToString(n);
      assert t[1..] == [];
      assert DigitsValue(t) == DigitsValueFrom(DigitValue(t[0]), []);
    } else {
      NatToStringDigits(n / 10);
      DigitsValueAppend(0, NatToString(n / 10), DigitChar(n % 10));
    }
  }

  datatype NumError = ErrSyntax | ErrRange

  const MaxUint16: nat := 65535

  /** `strconv.ParseUint(s, 10, 16)`: base-10 digits only (no sign, no underscores), at
      least one, value at most 65535; digits are scanned left to right and the range error
      is raised as soon as the value read so far exceeds the maximum. */
  function ParseUint16(s: string): Result<nat, NumError>
  {
    if s == "" then Failure(ErrSyntax) else ParseDigits(s, 0)
  }

  function ParseDigits(s: string, acc: nat): Result<nat, NumError>
    decreases |s|
  {
    if s == [] then Success(acc)
    else if !IsDigit(s[0]) then Failure(ErrSyntax)
    else
      var n := acc * 10 + DigitValue(s[0]);
      if n > MaxUint16 then Failure(ErrRange) else ParseDigits(s[1..], n)
  }

  lemma {:induction false} ParseDigitsMeaning(s: string, acc: nat)
    requires acc <= MaxUint16
    ensures ParseDigits(s, acc).Success? <==> AllDigits(s) && DigitsValueFrom(acc, s) <= MaxUint16
    ensures ParseDigits(s, acc).Success? ==> ParseDigits(s, acc).value == DigitsValueFrom(acc, s)
    decreases |s|
  {
    if s != [] && IsDigit(s[0]) {
      var n := acc * 10 + DigitValue(s[0]);
      assert AllDigits(s) <==> AllDigits(s[1..]) by {
        if AllDigits(s[1..]) {
          forall i | 0 <= i < |s| ensures IsDigit(s[i]) {
            if i > 0 { assert s[i] == s[1..][i - 1]; }
          }
        }
      }
      if n > MaxUint16 {
        if AllDigits(s) { DigitsValueFromGrows(n, s[1..]); }
      } else {
        ParseDigitsMeaning(s[1..], n);
      }
    }
  }

  /** `ParseUint16` accepts exactly the non-empty digit strings denoting at most 65535. */
  lemma ParseUint16Meaning(s: string)
    ensures ParseUint16(s).Success? <==> s != "" && AllDigits(s) && DigitsValue(s) <= MaxUint16
    ensures ParseUint16(s).Success? ==> ParseUint16(s).value == DigitsValue(s)
  {
    if s != "" {
      ParseDigitsMeaning(s, 0);
    }
  }

  /** Round trip: a port written in decimal parses back to itself. */
  lemma ParseUint16OfNatToString(n: nat)
    requires n <= MaxUint16
    ensures ParseUint16(NatToString(n)) == Success(n)
  {
    NatToStringDigits(n);
    ParseUint16Meaning(NatToString(n));
  }

  /** The index of the first `c` in `s`, or `|s|` when there is none. */
  function IndexOf(s: string, c: char): (i: nat)
    ensures i <= |s|
    ensures i < |s| ==> s[i] == c
    ensures forall k :: 0 <= k < i ==> s[k] != c
  {
    if s == [] then 0 else if s[0] == c then 0 else 1 + IndexOf(s[1..], c)
  }

  /** The bytes of a string (Go's `[]byte(s)`; Python's `.encode()` for ASCII text). */
  function StrBytes(s: string): (b: seq<byte>)
    ensures |b| == |s|
  {
    seq(|s|, i requires 0 <= i < |s| => (s[i] as int % 256) as byte)
  }

  /** A string holding the bytes `b`, one character each (Go's `string(b)`). */
  function BytesToString(b: seq<byte>): (s: string)
    ensures |s| == |b|
    ensures StrBytes(s) == b
  {
    seq(|b|, i requires 0 <= i < |b| => (b[i] as int) as char)
  }
}
