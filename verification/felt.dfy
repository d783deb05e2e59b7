/** Short strings packed into a field element ("felt") as the contract tests
    do: the bytes of a string read as one big-endian unsigned integer, and a
    felt written back as exactly 31 big-endian bytes. The text codec that
    turns a string into bytes and back is outside this model; everything
    here is over byte sequences. */
module Felt {
  import opened Arith

  type Byte = b: int | 0 <= b < 256

  /** Number of bytes a felt is written to. */
  const FeltBytes: nat := 31

  datatype Error = OverflowError

  datatype Result<T> = Success(value: T) | Failure(error: Error)

  /** `k` zero bytes. */
  function Zeros(k: nat): (r: seq<Byte>)
    ensures |r| == k
    ensures forall i :: 0 <= i < k ==> r[i] == 0
  {
    if k == 0 then [] else Zeros(k - 1) + [0]
  }

  /** The unsigned big-endian value of `b`: the first byte is the most
      significant, weighing 256^(|b|-1). It always fits |b| bytes. */
  function BigEndianValue(b: seq<Byte>): (r: nat)
    ensures r < Pow(256, |b|)
  {
    if |b| == 0 then 0
    else
      var rest := BigEndianValue(b[1..]);
      DigitBound(b[0], 256, Pow(256, |b| - 1), rest);
      b[0] * Pow(256, |b| - 1) + rest
  }

  /** `str_to_felt` on the encoded bytes: `int.from_bytes(bytes, 'big')`. */
  function StrToFelt(bytes: seq<Byte>): (r: nat)
    ensures r < Pow(256, |bytes|)
  {
    BigEndianValue(bytes)
  }

  /** `len` big-endian bytes of a non-negative `f`, least significant byte
      last; digits of `f` above 256^len are dropped. */
  function Digits(f: nat, len: nat): (r: seq<Byte>)
    ensures |r| == len
  {
    if len == 0 then [] else Digits(f / 256, len - 1) + [f % 256]
  }

  /** `int.to_bytes(f, len, 'big')`: an `OverflowError` when `f` is negative
      or does not fit `len` bytes, else exactly `len` bytes whose big-endian
      value is `f`. */
  function ToBytes(f: int, len: nat): (r: Result<seq<Byte>>)
    ensures r.Failure? <==> f < 0 || f >= Pow(256, len)
    ensures r.Success? ==> |r.value| == len && BigEndianValue(r.value) == f
  {
    if f < 0 || f >= Pow(256, len) then Failure(OverflowError)
    else
      DigitsValue(f, len);
      Success(Digits(f, len))
  }

  /** `felt_to_str` before decoding: `felt.to_bytes(31, 'big')`. Exactly 31
      bytes for every felt in [0, 2^248); an `OverflowError` otherwise. */
  function FeltToStr(felt: int): (r: Result<seq<Byte>>)
    ensures r.Failure? <==> felt < 0 || felt >= Pow(2, 8 * FeltBytes)
    ensures r.Success? ==> |r.value| == FeltBytes && StrToFelt(r.value) == felt
  {
    BytePowIsBitPow(FeltBytes);
    ToBytes(felt, FeltBytes)
  }

  /** Appending a byte shifts the value left by one byte:
      value(b + [c]) == 256 * value(b) + c. */
  lemma {:induction false} AppendByte(b: seq<Byte>, c: Byte)
    ensures BigEndianValue(b + [c]) == 256 * BigEndianValue(b) + c
    decreases |b|
  {
    if |b| > 0 {
      var bc := b + [c];
      assert bc[1..] == b[1..] + [c];
      AppendByte(b[1..], c);
      assert Pow(256, |b|) == 256 * Pow(256, |b| - 1);
      calc {
        BigEndianValue(bc);
        b[0] * Pow(256, |b|) + BigEndianValue(b[1..] + [c]);
        b[0] * (256 * Pow(256, |b| - 1)) + BigEndianValue(b[1..] + [c]);
        b[0] * (256 * Pow(256, |b| - 1)) + 256 * BigEndianValue(b[1..]) + c;
        256 * (b[0] * Pow(256, |b| - 1) + BigEndianValue(b[1..])) + c;
        256 * BigEndianValue(b) + c;
      }
    }
  }

  /** Leading zero bytes do not change the value. */
  lemma {:induction false} LeadingZeros(k: nat, b: seq<Byte>)
    ensures BigEndianValue(Zeros(k) + b) == BigEndianValue(b)
    decreases k
  {
    if k > 0 {
      var z := Zeros(k) + b;
      assert Zeros(k) == [0] + Zeros(k - 1);
      assert z[0] == 0;
      assert z[1..] == Zeros(k - 1) + b;
      LeadingZeros(k - 1, b);
      assert BigEndianValue(z) == BigEndianValue(z[1..]) by {
        assert z[0] * Pow(256, |z| - 1) == 0;
      }
    } else {
      assert Zeros(k) + b == b;
    }
  }

  /** Reading back the digits of a value that fits gives the value. */
  lemma {:induction false} DigitsValue(f: nat, len: nat)
    requires f < Pow(256, len)
    ensures BigEndianValue(Digits(f, len)) == f
    decreases len
  {
    if len > 0 {
      assert f / 256 < Pow(256, len - 1);
      DigitsValue(f / 256, len - 1);
      AppendByte(Digits(f / 256, len - 1), f % 256);
    }
  }

  /** Writing the value of a byte string to `len >= |b|` bytes gives the
      string left-padded with zero bytes. */
  lemma {:induction false} DigitsOfValue(b: seq<Byte>, len: nat)
    requires |b| <= len
    ensures Digits(BigEndianValue(b), len) == Zeros(len - |b|) + b
    decreases len
  {
    if len > 0 {
      if |b| == 0 {
        DigitsOfValue(b, len - 1);
      } else {
        var init, c := b[..|b| - 1], b[|b| - 1];
        assert b == init + [c];
        AppendByte(init, c);
        DivModUnique(BigEndianValue(b), 256, BigEndianValue(init), c);
        DigitsOfValue(init, len - 1);
      }
    }
  }

  /** Decoding the 31-byte encoding of a felt gives the felt back. */
  lemma FeltRoundTrip(felt: int)
    requires 0 <= felt < Pow(2, 8 * FeltBytes)
    ensures FeltToStr(felt).Success?
    ensures StrToFelt(FeltToStr(felt).value) == felt
  {
  }

  /** Encoding the value of at most 31 bytes gives those bytes, left-padded
      with zero bytes to 31. */
  lemma StrRoundTrip(bytes: seq<Byte>)
    requires |bytes| <= FeltBytes
    ensures FeltToStr(StrToFelt(bytes)) == Success(Zeros(FeltBytes - |bytes|) + bytes)
  {
    if |bytes| < FeltBytes {
      PowStrictlyIncreasing(256, |bytes|, FeltBytes);
    }
    DigitsOfValue(bytes, FeltBytes);
  }
}
