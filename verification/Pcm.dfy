/** Bytes, 16-bit little-endian samples and durations of the 16 kHz mono PCM16 stream. */
module Pcm {
  import opened Seqs

  newtype Byte = b: int | 0 <= b < 256
  type Bytes = seq<Byte>

  function EvenPad(b: Bytes): Bytes {
    if |b| % 2 == 0 then b else b + [0]
  }

  lemma EvenPadAppend(a: Bytes, b: Bytes)
    requires |a + b| % 2 == |b| % 2
    ensures EvenPad(a + b) == a + EvenPad(b)
  {
    if |b| % 2 != 0 {
      Assoc(a, b, [0]);
    }
  }

  /** At most one byte is added, a zero one at the end, and only to an odd length. */
  lemma EvenPadMeaning(b: Bytes)
    ensures |EvenPad(b)| == |b| + |b| % 2 && EvenPad(b)[..|b|] == b
    ensures |b| % 2 != 0 ==> EvenPad(b)[|b|] == 0
  {
  }

  /** The bytes that make whole samples. */
  function Usable(b: Bytes): Bytes {
    b[..|b| - |b| % 2]
  }

  function Abs(n: int): nat { if n < 0 then -n else n }

  /** Rounding to the nearest integer, ties to the even one. */
  function RoundHalfEven(x: real): int {
    var f := x.Floor;
    var d := x - f as real;
    if d < 0.5 || (d == 0.5 && f % 2 == 0) then f else f + 1
  }

  lemma RoundIsNearest(x: real)
    ensures x - 0.5 <= RoundHalfEven(x) as real <= x + 0.5
  {
  }

  /** Halfway between two integers the even one is taken. */
  lemma RoundTie(x: real, n: int)
    requires x == n as real + 0.5
    ensures RoundHalfEven(x) % 2 == 0
  {
    assert x.Floor == n;
  }

  lemma RoundMonotone(x: real, y: real)
    requires x <= y
    ensures RoundHalfEven(x) <= RoundHalfEven(y)
  {
    if x.Floor < y.Floor {
      RoundIsNearest(x);
      RoundIsNearest(y);
    }
  }

  lemma RoundInteger(x: real, n: int)
    requires x == n as real
    ensures RoundHalfEven(x) == n
  {
  }

  /** Bytes that last the given milliseconds, at 32 bytes each, rounded up to whole samples, never none. */
  function BytesForDuration(ms: real): (n: nat)
    ensures n >= 2 && n % 2 == 0
  {
    var raw := RoundHalfEven(32.0 * ms);
    if raw <= 0 then 2 else raw + raw % 2
  }

  lemma BytesForDurationMonotone(a: real, b: real)
    requires a <= b
    ensures BytesForDuration(a) <= BytesForDuration(b)
  {
    RoundMonotone(32.0 * a, 32.0 * b);
  }

  /** At least one sample, and otherwise the duration to within rounding to a byte and then up to a sample. */
  lemma BytesForDurationNearest(ms: real)
    ensures ms <= 0.0 ==> BytesForDuration(ms) == 2
    ensures ms >= 0.0 ==> 32.0 * ms - 0.5 <= BytesForDuration(ms) as real
    ensures BytesForDuration(ms) > 2 ==> BytesForDuration(ms) as real <= 32.0 * ms + 1.5
  {
    RoundIsNearest(32.0 * ms);
    if ms <= 0.0 {
      RoundMonotone(32.0 * ms, 0.0);
      RoundInteger(0.0, 0);
    }
  }

  lemma BytesForWholeMillis(ms: nat)
    requires ms > 0
    ensures BytesForDuration(ms as real) == 32 * ms
  {
    var samples := 16 * ms;
    RoundInteger(32.0 * ms as real, 2 * samples);
    assert 2 * samples % 2 == 0;
  }

  /** How long the bytes last, in hundredths of a millisecond: 25 bytes in 8, rounded half to even. */
  function Hundredths(bytes: nat): nat {
    var q, r := 25 * bytes / 8, 25 * bytes % 8;
    if r < 4 || (r == 4 && q % 2 == 0) then q else q + 1
  }

  lemma HundredthsError(bytes: nat)
    ensures 25 * bytes - 4 <= 8 * Hundredths(bytes) <= 25 * bytes + 4
    ensures bytes % 8 == 0 ==> 8 * Hundredths(bytes) == 25 * bytes
    ensures 25 * bytes % 8 == 4 ==> Hundredths(bytes) % 2 == 0
  {
    assert bytes % 8 == 0 ==> 25 * bytes % 8 == 0;
  }

  function Sample(lo: Byte, hi: Byte): (s: int)
    ensures -32768 <= s < 32768
  {
    var u := lo as int + 256 * (hi as int);
    if u >= 32768 then u - 65536 else u
  }

  /** A sample is the low byte plus 256 times the high one, as a signed number of 16 bits. */
  lemma SampleMeaning(lo: Byte, hi: Byte)
    ensures Sample(lo, hi) == lo as int + 256 * (hi as int) || Sample(lo, hi) == lo as int + 256 * (hi as int) - 65536
    ensures -32768 <= Sample(lo, hi) <= 32767
  {
  }

  function Samples(b: Bytes): (s: seq<int>)
    ensures |s| == |b| / 2
  {
    if |b| < 2 then [] else [Sample(b[0], b[1])] + Samples(b[2..])
  }

  predicate IsPcm16(s: seq<int>) {
    forall i :: 0 <= i < |s| ==> -32768 <= s[i] < 32768
  }

  function EncodeSample(s: int): Bytes
    requires -32768 <= s < 32768
  {
    var u := if s < 0 then s + 65536 else s;
    [(u % 256) as Byte, (u / 256) as Byte]
  }

  function Encode(s: seq<int>): (b: Bytes)
    requires IsPcm16(s)
    ensures |b| == 2 * |s|
  {
    if s == [] then [] else EncodeSample(s[0]) + Encode(s[1..])
  }

  lemma {:induction false} SamplesInRange(b: Bytes)
    ensures IsPcm16(Samples(b))
  {
    if |b| >= 2 {
      SamplesInRange(b[2..]);
    }
  }

  lemma {:induction false} SamplesAt(b: Bytes, i: nat)
    requires 2 * i + 1 < |b|
    ensures Samples(b)[i] == Sample(b[2 * i], b[2 * i + 1])
  {
    if i > 0 {
      SamplesAt(b[2..], i - 1);
    }
  }

  lemma {:induction false} DecodeEncode(s: seq<int>)
    requires IsPcm16(s)
    ensures Samples(Encode(s)) == s
  {
    if s != [] {
      DecodeEncode(s[1..]);
      var b := Encode(s);
      assert b[2..] == Encode(s[1..]);
      assert b[..2] == EncodeSample(s[0]);
    }
  }

  lemma {:induction false} EncodeDecode(b: Bytes)
    requires |b| % 2 == 0
    ensures IsPcm16(Samples(b)) && Encode(Samples(b)) == b
  {
    SamplesInRange(b);
    if |b| >= 2 {
      EncodeDecode(b[2..]);
      assert Samples(b)[1..] == Samples(b[2..]);
      assert b == b[..2] + b[2..];
    }
  }

  lemma {:induction false} SamplesAppend(a: Bytes, b: Bytes)
    requires |a| % 2 == 0
    ensures Samples(a + b) == Samples(a) + Samples(b)
  {
    if a == [] {
      assert a + b == b;
    } else {
      var all, first := a + b, [Sample(a[0], a[1])];
      assert all[2..] == a[2..] + b && all[0] == a[0] && all[1] == a[1];
      SamplesAppend(a[2..], b);
      Assoc(first, Samples(a[2..]), Samples(b));
    }
  }

  lemma {:induction false} SamplesDrop(b: Bytes, n: nat)
    requires 2 * n <= |b|
    ensures Samples(b[2 * n..]) == Samples(b)[n..]
  {
    if n > 0 {
      SamplesDrop(b[2..], n - 1);
      assert b[2..][2 * (n - 1)..] == b[2 * n..];
    }
  }

  lemma {:induction false} SamplesUsable(b: Bytes)
    ensures Samples(Usable(b)) == Samples(b)
  {
    if |b| >= 2 {
      SamplesUsable(b[2..]);
      assert Usable(b)[2..] == Usable(b[2..]);
    }
  }

  /** No part ends in the middle of a sample. */
  predicate WholeSamples(parts: seq<Bytes>) {
    forall i :: 0 <= i < |parts| ==> |parts[i]| % 2 == 0
  }

  lemma {:induction false} WholeSamplesFlatten(parts: seq<Bytes>)
    requires WholeSamples(parts)
    ensures |Flatten(parts)| % 2 == 0
  {
    if parts != [] {
      WholeSamplesFlatten(parts[1..]);
    }
  }
}
