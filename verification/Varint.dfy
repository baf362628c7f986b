/**
 The VarInt of the handshake gate: unsigned LEB128 limited to 32 bits, with only
 the shortest form of each number allowed.
 */
module Varint {
  import opened Bytes

  /** What a reader can say about the bytes it has: `value` took `length` bytes. */
  datatype Read = Incomplete | Malformed | Value(value: nat, length: nat)

  /** The weight of byte `k`: `1 << (7 * k)`. */
  function Weight(k: nat): (w: nat)
    ensures w > 0
  {
    if k == 0 then 1 else 128 * Weight(k - 1)
  }

  /** Numbers that still fit 32 bits when they start at byte `k`. */
  function Bound(k: nat): (b: nat)
    requires k < 5
    ensures b >= 16 && (k < 4 ==> b >= 128)
    decreases 5 - k
  {
    if k == 4 then 16 else 128 * Bound(k + 1)
  }

  /** Reads one number whose byte `k` comes first in `s`. */
  function ReadFrom(s: seq<byte>, k: nat): Read
    requires k <= 5
    decreases |s|
  {
    if k == 5 then Malformed
    else if s == [] then Incomplete
    else if k == 4 && s[0] % 128 > 15 then Malformed
    else if s[0] < 128 then
      if k > 0 && s[0] == 0 then Malformed else Value(s[0], 1)
    else
      match ReadFrom(s[1..], k + 1)
      case Value(v, n) => Value(s[0] - 128 + 128 * v, n + 1)
      case r => r
  }

  /** The printer: seven bits a byte, low bits first, high bit set on all but the last. */
  function Encode(v: nat): seq<byte> {
    if v < 128 then [v] else [128 + v % 128] + Encode(v / 128)
  }

  /** The printer's loop, which grows the output and shifts the number right. */
  method PrintVarint(value: nat) returns (out: seq<byte>)
    ensures out == Encode(value)
  {
    out := [];
    var rest := value;
    while rest >= 128
      invariant Encode(value) == out + Encode(rest)
    {
      out := out + [128 + rest % 128];
      rest := rest / 128;
    }
    out := out + [rest];
  }

  /** `ReadFrom` after `k` bytes worth `acc` have been consumed. */
  ghost function Resume(acc: nat, k: nat, r: Read): Read {
    match r
    case Value(v, n) => Value(acc + Weight(k) * v, k + n)
    case _ => r
  }

  lemma ResumeStep(acc: nat, k: nat, low: nat, r: Read)
    ensures Resume(acc, k, match r case Value(v, n) => Value(low + 128 * v, n + 1) case _ => r)
         == Resume(acc + Weight(k) * low, k + 1, r)
  {
    if r.Value? {
      calc {
        acc + Weight(k) * (low + 128 * r.value);
        acc + Weight(k) * low + Weight(k) * (128 * r.value);
        acc + Weight(k) * low + Weight(k + 1) * r.value;
      }
    }
  }

  /** Placing a seven-bit digit above the bits already read. */
  lemma PlaceDigit(acc: nat, weight: nat, low: nat)
    requires acc < weight && low < 128
    ensures acc + weight * low < 128 * weight
    ensures acc + weight * low < weight <==> low == 0
  {
    assert weight * low <= weight * 127;
    if low > 0 { assert weight * low >= weight; }
  }

  /** One byte of the loop: refuse, finish, or go on one weight up. */
  lemma ResumeByte(acc: nat, k: nat, s: seq<byte>)
    requires k < 5 && s != [] && acc < Weight(k) && !(k == 4 && s[0] % 128 > 15)
    ensures var next := acc + Weight(k) * (s[0] % 128);
            && next < 128 * Weight(k)
            && Resume(acc, k, ReadFrom(s, k))
            == if s[0] >= 128 then Resume(next, k + 1, ReadFrom(s[1..], k + 1))
               else if k > 0 && next < Weight(k) then Malformed
               else Value(next, k + 1)
  {
    PlaceDigit(acc, Weight(k), s[0] % 128);
    if s[0] >= 128 {
      ResumeStep(acc, k, s[0] - 128, ReadFrom(s[1..], k + 1));
    }
  }

  /** Where the loop stops without a value. */
  lemma ReadStops(s: seq<byte>, k: nat)
    requires k <= 5
    ensures k == 5 ==> ReadFrom(s, k) == Malformed
    ensures k < 5 && s == [] ==> ReadFrom(s, k) == Incomplete
    ensures k == 4 && s != [] && s[0] % 128 > 15 ==> ReadFrom(s, k) == Malformed
  {
  }

  /**
   The reader's loop: at most five bytes from `buf[offset..len]`, accumulated by
   position, the high bits of the fifth byte and a zero last byte refused.
   */
  method ReadVarint(buf: array<byte>, len: nat, offset: nat) returns (r: Read)
    requires offset <= len <= buf.Length
    ensures r == ReadFrom(buf[offset..len], 0)
  {
    hide ReadFrom;
    var value: nat, index: nat, weight: nat := 0, 0, 1;
    ghost var rest := buf[offset..len];
    while index < 5
      invariant index <= 5 && offset + index <= len
      invariant weight == Weight(index) && value < weight
      invariant rest == buf[offset + index..len]
      invariant ReadFrom(buf[offset..len], 0) == Resume(value, index, ReadFrom(rest, index))
    {
      ReadStops(rest, index);
      if offset + index >= len {
        return Incomplete;
      }
      var b := buf[offset + index];
      var low: nat := b % 128;
      if index == 4 && low > 15 {
        return Malformed;
      }
      ResumeByte(value, index, rest);
      var next: nat := value + weight * low;
      if b < 128 {
        if index > 0 && next < weight {
          return Malformed;
        }
        return Value(next, index + 1);
      }
      value, index, weight, rest := next, index + 1, 128 * weight, rest[1..];
    }
    ReadStops(rest, index);
    return Malformed;
  }

  /** A printed number starts with its own byte, or with one that says more follow. */
  lemma EncodeStarts(s: seq<byte>, v: nat)
    requires Encode(v) <= s
    ensures s != [] && s[0] == if v < 128 then v else 128 + v % 128
  {
    assert s[0] == Encode(v)[0];
  }

  lemma OneByteStarts(s: seq<byte>, v: nat)
    requires s != [] && s[0] == v < 128
    ensures Encode(v) == [v] <= s
  {
    assert s == [v] + s[1..];
  }

  lemma EncodeContinues(s: seq<byte>, v: nat)
    requires s != [] && v >= 128
    ensures |Encode(v)| == |Encode(v / 128)| + 1
    ensures Encode(v) <= s <==> s[0] == 128 + v % 128 && Encode(v / 128) <= s[1..]
  {
    var tail := Encode(v / 128);
    if Encode(v) <= s {
      assert s[0] == Encode(v)[0] && tail == Encode(v)[1..] == s[1..|tail| + 1];
    }
    if s[0] == 128 + v % 128 && tail <= s[1..] {
      assert s[..|tail| + 1] == [s[0]] + s[1..|tail| + 1];
    }
  }

  /** Where no byte follows, or none may. */
  lemma LastByteIffEncoded(s: seq<byte>, k: nat, v: nat, n: nat)
    requires k < 5 && (s == [] || s[0] < 128 || k == 4)
    ensures ReadFrom(s, k) == Value(v, n)
       <==> v < Bound(k) && (k > 0 ==> v > 0) && n == |Encode(v)| && Encode(v) <= s
  {
    hide Encode;
    if Encode(v) <= s {
      EncodeStarts(s, v);
    }
    if s != [] && s[0] < 128 {
      OneByteStarts(s, s[0]);
    }
  }

  /**
   The reader accepts exactly the printer's output: some number is read from the
   front of `s` if and only if its encoding is there and it is in range.
   */
  lemma {:induction false} ReadFromIffEncoded(s: seq<byte>, k: nat, v: nat, n: nat)
    requires k < 5
    ensures ReadFrom(s, k) == Value(v, n)
       <==> v < Bound(k) && (k > 0 ==> v > 0) && n == |Encode(v)| && Encode(v) <= s
    decreases 5 - k
  {
    hide Encode;
    if s == [] || s[0] < 128 || k == 4 {
      LastByteIffEncoded(s, k, v, n);
    } else if v < 128 {
      if Encode(v) <= s {
        EncodeStarts(s, v);
      }
      if ReadFrom(s[1..], k + 1).Value? {
        var r := ReadFrom(s[1..], k + 1);
        ReadFromIffEncoded(s[1..], k + 1, r.value, r.length);
      }
    } else {
      EncodeContinues(s, v);
      if n > 0 {
        ReadFromIffEncoded(s[1..], k + 1, v / 128, n - 1);
      }
    }
  }

  /** Decoding inverts encoding, whatever follows on the wire. */
  lemma DecodeInvertsEncode(v: nat, rest: seq<byte>)
    requires v < Bound(0)
    ensures ReadFrom(Encode(v) + rest, 0) == Value(v, |Encode(v)|)
  {
    ReadFromIffEncoded(Encode(v) + rest, 0, v, |Encode(v)|);
  }

  /** No two byte strings decode to the same number. */
  lemma DecodeIsInjective(a: seq<byte>, b: seq<byte>, v: nat)
    requires ReadFrom(a, 0) == Value(v, |a|) && ReadFrom(b, 0) == Value(v, |b|)
    ensures a == b
  {
    ReadFromIffEncoded(a, 0, v, |a|);
    ReadFromIffEncoded(b, 0, v, |b|);
  }

  /** Once a verdict is reached, more bytes never change it. */
  lemma {:induction false} ReadFromIsStable(s: seq<byte>, more: seq<byte>, k: nat)
    requires k <= 5 && ReadFrom(s, k) != Incomplete
    ensures ReadFrom(s + more, k) == ReadFrom(s, k)
    decreases 5 - k
  {
    if k < 5 && s[0] >= 128 && !(k == 4 && s[0] % 128 > 15) {
      ReadFromIsStable(s[1..], more, k + 1);
      assert (s + more)[1..] == s[1..] + more;
    }
  }

  lemma {:induction false} ReadLengthIsBounded(s: seq<byte>, k: nat)
    requires k <= 5 && ReadFrom(s, k).Value?
    ensures 1 <= ReadFrom(s, k).length <= |s| && ReadFrom(s, k).length <= 5 - k
    decreases 5 - k
  {
    if s[0] >= 128 {
      ReadLengthIsBounded(s[1..], k + 1);
    }
  }
}
