/** The fade-in: a linear ramp over the first samples. */
module Ramp {
  import opened Seqs
  import opened Pcm

  /** x * i / d truncated toward zero. */
  function Scaled(x: int, i: nat, d: nat): int
    requires d > 0
  {
    if x >= 0 then Quotient(x * i, d) else -Quotient(-x * i, d)
  }

  function Quotient(p: int, d: nat): int
    requires d > 0
  {
    p / d
  }

  /** Ramps the first `fade` samples up from nothing to full scale. */
  function FadeIn(s: seq<int>, fade: nat): (r: seq<int>)
    ensures |r| == |s|
  {
    var window := Min(fade, |s|);
    if window <= 1 then s
    else seq(|s|, i requires 0 <= i < |s| => if i < window then Scaled(s[i], i, window - 1) else s[i])
  }

  lemma QuotientBetween(p: nat, a: nat, d: nat)
    requires d > 0
    ensures p <= a * d ==> Quotient(p, d) <= a
    ensures p < a * d ==> Quotient(p, d) < a
    ensures p >= a * d ==> Quotient(p, d) >= a
  {
    var q := p / d;
    assert q * d <= p < q * d + d;
    if q > a {
      LessTimes(a, q, d);
    } else if q < a {
      LessTimes(q, a, d);
    }
  }

  lemma LessTimes(a: nat, b: nat, d: nat)
    requires a < b
    ensures a * d + d <= b * d
  {
    assert b * d == a * d + (b - a) * d;
    assert (b - a) * d == d + (b - a - 1) * d;
  }

  lemma ScaledMagnitude(a: nat, i: nat, d: nat)
    requires 0 < d && i <= d
    ensures 0 <= Quotient(a * i, d) <= a
    ensures i == d ==> Quotient(a * i, d) == a
    ensures i < d && a > 0 ==> Quotient(a * i, d) < a
  {
    assert a * d == a * i + a * (d - i);
    assert i < d && a > 0 ==> a * (d - i) > 0;
    QuotientBetween(a * i, a, d);
  }

  /** Scaling never amplifies and never flips the sign; it changes nothing only at full scale or at zero. */
  lemma ScaledBound(x: int, i: nat, d: nat)
    requires 0 < d && i <= d
    ensures x >= 0 ==> 0 <= Scaled(x, i, d) <= x
    ensures x <= 0 ==> x <= Scaled(x, i, d) <= 0
    ensures Scaled(x, i, d) == x <==> i == d || x == 0
  {
    if x >= 0 {
      ScaledMagnitude(x, i, d);
    } else {
      ScaledMagnitude(-x, i, d);
    }
  }

  /** The product with i, divided by d and cut off toward zero. */
  lemma ScaledMeaning(x: int, i: nat, d: nat)
    requires 0 < d && i <= d
    ensures x >= 0 ==> Scaled(x, i, d) * d <= x * i < Scaled(x, i, d) * d + d
    ensures x <= 0 ==> -Scaled(x, i, d) * d <= -x * i < -Scaled(x, i, d) * d + d
  {
    if x >= 0 {
      QuotientMeaning(x * i, d);
    } else {
      QuotientMeaning(-x * i, d);
    }
  }

  lemma QuotientMeaning(p: nat, d: nat)
    requires d > 0
    ensures Quotient(p, d) * d <= p < Quotient(p, d) * d + d
  {
  }

  /**
   `r` is `s` with its first samples ramped up: sample i of a window of w is i / (w - 1) of itself, cut toward zero.
   */
  ghost predicate Ramped(s: seq<int>, fade: nat, r: seq<int>) {
    var w := Min(fade, |s|);
    && |r| == |s|
    && (forall i :: 0 <= i < |s| && (w <= 1 || w <= i) ==> r[i] == s[i])
    && (forall i :: 0 <= i < w && w > 1 ==> IsShare(s[i], i, w - 1, r[i]))
  }

  predicate IsShare(x: int, i: nat, d: nat, y: int) {
    if x >= 0 then 0 <= y && y * d <= x * i < y * d + d else y <= 0 && -y * d <= -x * i < -y * d + d
  }

  lemma FadeRamps(s: seq<int>, fade: nat)
    ensures Ramped(s, fade, FadeIn(s, fade))
  {
    var w := Min(fade, |s|);
    forall i | 0 <= i < w && w > 1 ensures IsShare(s[i], i, w - 1, FadeIn(s, fade)[i]) {
      ScaledMeaning(s[i], i, w - 1);
      ScaledBound(s[i], i, w - 1);
    }
  }

  lemma FadeInRange(s: seq<int>, fade: nat)
    requires IsPcm16(s)
    ensures IsPcm16(FadeIn(s, fade))
  {
    var window := Min(fade, |s|);
    if window > 1 {
      forall i | 0 <= i < window ensures -32768 <= FadeIn(s, fade)[i] < 32768 {
        ScaledBound(s[i], i, window - 1);
      }
    }
  }

  /** Scales the samples in place, first to last. */
  method FadeInPlace(samples: array<int>, fade: nat)
    modifies samples
    ensures samples[..] == FadeIn(old(samples[..]), fade)
  {
    var window := Min(fade, samples.Length);
    if window <= 1 {
      return;
    }
    for i := 0 to window
      invariant forall k :: 0 <= k < i ==> samples[k] == Scaled(old(samples[k]), k, window - 1)
      invariant forall k :: i <= k < samples.Length ==> samples[k] == old(samples[k])
    {
      samples[i] := Scaled(samples[i], i, window - 1);
    }
  }
}
