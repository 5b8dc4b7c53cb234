/** Big-endian numbers, fixed-width padding, and byte comparison. */
module Bytes {
  import opened ModularArithmetic
  import Bits

  type Byte = b: int | 0 <= b < 256

  /** The number of values that fit in `length` bytes. */
  ghost function Capacity(length: nat): (c: nat)
    ensures c > 0
  {
    PowPositive(256, length);
    Pow(256, length)
  }

  /** Big-endian digits without leading zeros; zero itself is one zero byte. */
  function ToBytes(n: nat): (bs: seq<Byte>)
    ensures |bs| > 0
    ensures n > 0 ==> bs[0] != 0
  {
    if n < 256 then [n] else ToBytes(n / 256) + [n % 256]
  }

  function FromBytes(bs: seq<Byte>): nat {
    if bs == [] then 0
    else FromBytes(bs[..|bs| - 1]) * 256 + bs[|bs| - 1]
  }

  lemma {:induction false} NumberRoundTrip(n: nat)
    ensures FromBytes(ToBytes(n)) == n
  {
    var bs := ToBytes(n);
    if n < 256 {
      assert bs[..0] == [];
    } else {
      NumberRoundTrip(n / 256);
      assert bs[..|bs| - 1] == ToBytes(n / 256);
    }
  }

  /** Big-endian digits with nothing superfluous in front. */
  predicate Shortest(bs: seq<Byte>) {
    bs != [] && (|bs| > 1 ==> bs[0] != 0)
  }

  lemma ToBytesIsShortest(n: nat)
    ensures Shortest(ToBytes(n))
  {
  }

  /** A number has only one shortest spelling. */
  lemma {:induction false} ShortestIsToBytes(bs: seq<Byte>)
    requires Shortest(bs)
    ensures bs == ToBytes(FromBytes(bs))
  {
    var init, last := bs[..|bs| - 1], bs[|bs| - 1];
    assert bs == init + [last];
    if |bs| > 1 {
      ShortestIsToBytes(init);
      NonZero(init);
      assert FromBytes(bs) / 256 == FromBytes(init) && FromBytes(bs) % 256 == last;
    }
  }

  lemma {:induction false} NonZero(bs: seq<Byte>)
    requires bs != [] && bs[0] != 0
    ensures FromBytes(bs) > 0
  {
    if |bs| > 1 {
      NonZero(bs[..|bs| - 1]);
    }
  }

  lemma {:induction false} FromBytesConcat(a: seq<Byte>, b: seq<Byte>)
    ensures FromBytes(a + b) == FromBytes(a) * Capacity(|b|) + FromBytes(b)
  {
    if b == [] {
      assert a + b == a;
    } else {
      var init, last := b[..|b| - 1], b[|b| - 1];
      FromBytesConcat(a, init);
      assert (a + b)[..|a + b| - 1] == a + init;
      assert (FromBytes(a) * Capacity(|init|)) * 256 == FromBytes(a) * (256 * Capacity(|init|));
    }
  }

  lemma {:induction false} FromBytesBound(bs: seq<Byte>)
    ensures FromBytes(bs) < Capacity(|bs|)
  {
    if bs != [] {
      FromBytesBound(bs[..|bs| - 1]);
    }
  }

  lemma {:induction false} FromBytesInjective(a: seq<Byte>, b: seq<Byte>)
    requires |a| == |b| && FromBytes(a) == FromBytes(b)
    ensures a == b
  {
    if a != [] {
      var m := |a| - 1;
      FromBytesInjective(a[..m], b[..m]);
      assert a == a[..m] + [a[m]] && b == b[..m] + [b[m]];
    }
  }

  lemma {:induction false} ZerosAreZero(bs: seq<Byte>)
    requires forall i :: 0 <= i < |bs| ==> bs[i] == 0
    ensures FromBytes(bs) == 0
  {
    if bs != [] {
      ZerosAreZero(bs[..|bs| - 1]);
    }
  }

  // ---------- padding (rust/src/utils.rs) ----------

  function Zeros(n: nat): (z: seq<Byte>)
    ensures |z| == n && forall i :: 0 <= i < n ==> z[i] == 0
  {
    seq(n, _ => 0)
  }

  /** Exactly `length` bytes: the input on the right, zeros or nothing to its left. */
  ghost function Pad(input: seq<Byte>, length: nat): (r: seq<Byte>)
    ensures |r| == length
  {
    if |input| >= length then input[|input| - length..] else Zeros(length - |input|) + input
  }

  method PadBuffer(input: seq<Byte>, length: nat) returns (output: array<Byte>)
    ensures fresh(output) && output[..] == Pad(input, length)
  {
    output := new Byte[length](_ => 0);
    if |input| >= length {
      for i := 0 to length
        invariant output[..i] == input[|input| - length..][..i]
      {
        output[i] := input[|input| - length + i];
      }
      return;
    }
    var shift := length - |input|;
    for i := 0 to |input|
      invariant forall k :: 0 <= k < shift ==> output[k] == 0
      invariant forall k :: 0 <= k < i ==> output[shift + k] == input[k]
    {
      output[shift + i] := input[i];
    }
    assert output[..] == Zeros(shift) + input;
  }

  /** The last bytes of a number are its remainder by their capacity, the others its quotient. */
  lemma CutNumber(head: seq<Byte>, tail: seq<Byte>)
    ensures FromBytes(head + tail) / Capacity(|tail|) == FromBytes(head)
    ensures FromBytes(head + tail) % Capacity(|tail|) == FromBytes(tail)
  {
    FromBytesConcat(head, tail);
    FromBytesBound(tail);
    QuotientOfSum(FromBytes(head + tail), Capacity(|tail|), FromBytes(head), FromBytes(tail));
  }

  lemma LeadingZeros(count: nat, input: seq<Byte>)
    ensures FromBytes(Zeros(count) + input) == FromBytes(input)
  {
    FromBytesConcat(Zeros(count), input);
    ZerosAreZero(Zeros(count));
    assert 0 * Capacity(|input|) == 0;
  }

  lemma PadValue(input: seq<Byte>, length: nat)
    ensures FromBytes(Pad(input, length)) == FromBytes(input) % Capacity(length)
  {
    if |input| >= length {
      var cut := |input| - length;
      assert input == input[..cut] + input[cut..];
      CutNumber(input[..cut], input[cut..]);
    } else {
      var padded := Pad(input, length);
      LeadingZeros(length - |input|, input);
      assert padded == [] + padded;
      CutNumber([], padded);
    }
  }

  /** Padding a number to `length` bytes keeps it modulo 256^length, and nothing else. */
  lemma PadNumber(n: nat, length: nat)
    ensures FromBytes(Pad(ToBytes(n), length)) == n % Capacity(length)
  {
    NumberRoundTrip(n);
    PadValue(ToBytes(n), length);
  }

  lemma PadDetermines(m: nat, n: nat, length: nat)
    ensures Pad(ToBytes(m), length) == Pad(ToBytes(n), length)
            <==> m % Capacity(length) == n % Capacity(length)
  {
    PadNumber(m, length);
    PadNumber(n, length);
    if m % Capacity(length) == n % Capacity(length) {
      FromBytesInjective(Pad(ToBytes(m), length), Pad(ToBytes(n), length));
    }
  }

  // ---------- legacy/deno/src/utils.ts ----------

  /** `toBuffer` on a bigint: bytes are put in front while anything remains. */
  method DenoToBuffer(data: int) returns (buffer: seq<Byte>)
    ensures data >= 0 ==> buffer == ToBytes(data)
    ensures data < 0 ==> buffer == []
  {
    buffer := [];
    var remaining := data;
    if remaining == 0 {
      return [0];
    }
    while remaining > 0
      invariant data >= 0 ==> remaining >= 0
      invariant data < 0 ==> remaining == data && buffer == []
      invariant remaining > 0 ==> ToBytes(data) == ToBytes(remaining) + buffer
      invariant remaining == 0 ==> buffer == ToBytes(data)
    {
      ghost var before := buffer;
      buffer := [remaining % 256] + buffer;
      if remaining >= 256 {
        assert ToBytes(remaining / 256) + [remaining % 256] + before == ToBytes(remaining / 256) + buffer;
      }
      remaining := remaining / 256;
    }
  }

  /** `pad`: an input too long for the buffer keeps its first bytes, where Rust keeps its last. */
  function DenoPad(buffer: seq<Byte>, length: nat): (r: seq<Byte>)
    ensures |r| == length
  {
    if |buffer| >= length then buffer[..length] else Zeros(length - |buffer|) + buffer
  }

  lemma DenoPadOfShort(buffer: seq<Byte>, length: nat)
    requires |buffer| <= length
    ensures DenoPad(buffer, length) == Pad(buffer, length)
  {
    if |buffer| == length {
      assert buffer[..length] == buffer == buffer[0..];
    }
  }

  /** Rust's padding keeps a number's remainder by 256^length; Deno's keeps its leading digits. */
  lemma DenoPadOfLong(buffer: seq<Byte>, length: nat)
    requires |buffer| > length
    ensures FromBytes(DenoPad(buffer, length)) == FromBytes(buffer) / Capacity(|buffer| - length)
  {
    var head, tail := buffer[..length], buffer[length..];
    CutNumber(head, tail);
    assert buffer == head + tail;
  }

  /** `readBigInt`: shift left by eight and or the next byte in, over the whole buffer. */
  function DenoReadBigInt(buffer: seq<Byte>): nat {
    if buffer == [] then 0
    else Bits.Or(Bits.ShiftLeft(DenoReadBigInt(buffer[..|buffer| - 1]), 8), buffer[|buffer| - 1])
  }

  lemma {:induction false} DenoReadsBigEndian(buffer: seq<Byte>)
    ensures DenoReadBigInt(buffer) == FromBytes(buffer)
  {
    if buffer != [] {
      var init := buffer[..|buffer| - 1];
      DenoReadsBigEndian(init);
      assert Pow(2, 8) == 256;
      Bits.OrDisjoint(DenoReadBigInt(init), buffer[|buffer| - 1], 8);
    }
  }

  // ---------- comparison (legacy/deno/src/srp.ts) ----------

  /** The comparison that never stops early still decides equality, lengths included. */
  method VerifyConstantTime(expected: seq<Byte>, actual: seq<Byte>) returns (same: bool)
    ensures same <==> expected == actual
  {
    var maxLength := if |expected| >= |actual| then |expected| else |actual|;
    var diff: nat := 0;
    for index := 0 to maxLength
      invariant diff == 0 <==> forall k :: 0 <= k < index ==> ByteOrZero(expected, k) == ByteOrZero(actual, k)
    {
      var e, a := ByteOrZero(expected, index), ByteOrZero(actual, index);
      Bits.XorIsZero(e, a);
      Bits.OrIsZero(diff, Bits.Xor(e, a));
      diff := Bits.Or(diff, Bits.Xor(e, a));
    }
    if |expected| != |actual| {
      Bits.OrIsZero(diff, 1);
      diff := Bits.Or(diff, 1);
    }
    same := diff == 0;
    if |expected| == |actual| && same {
      forall k | 0 <= k < |expected| ensures expected[k] == actual[k] {
        assert ByteOrZero(expected, k) == ByteOrZero(actual, k);
      }
    }
  }

  function ByteOrZero(bs: seq<Byte>, index: nat): Byte {
    if index < |bs| then bs[index] else 0
  }
}
