/** Sequence vocabulary shared by the audio, transfer, inventory and rate-limit models. */
module Seqs {

  datatype Option<+T> = None | Some(value: T)

  /** Python's truth of an optional string. */
  predicate Truthy(s: Option<string>) {
    s.Some? && s.value != ""
  }

  function Min(a: int, b: int): int { if a <= b then a else b }

  function Max(a: int, b: int): int { if a >= b then a else b }

  /** The elements of all parts, in order. */
  function Flatten<T>(parts: seq<seq<T>>): seq<T> {
    if parts == [] then [] else parts[0] + Flatten(parts[1..])
  }

  lemma Assoc<T>(a: seq<T>, b: seq<T>, c: seq<T>)
    ensures a + b + c == a + (b + c)
  {
  }

  lemma SliceSnoc<T>(front: seq<T>, last: T, lo: nat)
    requires lo <= |front|
    ensures (front + [last])[lo..|front| + 1] == front[lo..] + [last]
  {
  }

  lemma SliceJoin<T>(s: seq<T>, a: nat, b: nat, c: nat)
    requires a <= b <= c <= |s|
    ensures s[a..b] + s[b..c] == s[a..c]
    ensures s[b..][..c - b] == s[b..c]
  {
  }

  lemma {:induction false} FlattenAppend<T>(a: seq<seq<T>>, b: seq<seq<T>>)
    ensures Flatten(a + b) == Flatten(a) + Flatten(b)
  {
    if a == [] {
      assert a + b == b;
    } else {
      assert (a + b)[1..] == a[1..] + b;
      FlattenAppend(a[1..], b);
    }
  }

  lemma FlattenSnoc<T>(a: seq<seq<T>>, x: seq<T>)
    ensures Flatten(a + [x]) == Flatten(a) + x
  {
    FlattenAppend(a, [x]);
    assert Flatten([x]) == x + Flatten<T>([x][1..]);
  }

  /** Dropping parts from either end of a list drops a prefix and a suffix of its elements. */
  lemma FlattenSlice<T>(parts: seq<seq<T>>, lo: nat, hi: nat)
    requires lo <= hi <= |parts|
    ensures |Flatten(parts[..lo])| <= |Flatten(parts[..hi])| <= |Flatten(parts)|
    ensures Flatten(parts[lo..hi]) == Flatten(parts)[|Flatten(parts[..lo])|..|Flatten(parts[..hi])|]
  {
    assert parts == parts[..hi] + parts[hi..];
    assert parts[..hi] == parts[..lo] + parts[lo..hi];
    FlattenAppend(parts[..hi], parts[hi..]);
    FlattenAppend(parts[..lo], parts[lo..hi]);
  }

  /** n added up k times; recursion keeps products out of proofs about sequences. */
  function Times(n: nat, k: nat): nat {
    if k == 0 then 0 else Times(n, k - 1) + n
  }

  lemma {:induction false} TimesIsProduct(n: nat, k: nat)
    ensures Times(n, k) == n * k
  {
    if k > 0 {
      TimesIsProduct(n, k - 1);
      assert n * k == n * (k - 1) + n;
    }
  }

  lemma {:induction false} TimesAdd(n: nat, a: nat, b: nat)
    ensures Times(n, a + b) == Times(n, a) + Times(n, b)
  {
    if b > 0 {
      TimesAdd(n, a, b - 1);
    }
  }

  lemma {:induction false} FlattenUniform<T>(parts: seq<seq<T>>, n: nat)
    requires forall p <- parts :: |p| == n
    ensures |Flatten(parts)| == Times(n, |parts|)
  {
    if parts != [] {
      FlattenUniform(parts[1..], n);
    }
  }

  /** The complete blocks of n elements at the front of s; what is left over is `Tail`. */
  function Blocks<T>(s: seq<T>, n: nat): seq<seq<T>>
    requires n > 0
  {
    if |s| < n then [] else [s[..n]] + Blocks(s[n..], n)
  }

  function Tail<T>(s: seq<T>, n: nat): seq<T>
    requires n > 0
  {
    if |s| < n then s else Tail(s[n..], n)
  }

  lemma {:induction false} BlocksPartition<T>(s: seq<T>, n: nat)
    requires n > 0
    ensures forall b <- Blocks(s, n) :: |b| == n
    ensures |Tail(s, n)| < n
    ensures Flatten(Blocks(s, n)) + Tail(s, n) == s
  {
    if |s| >= n {
      BlocksPartition(s[n..], n);
      assert s == s[..n] + s[n..];
    }
  }

  lemma {:induction false} TailParity<T>(s: seq<T>, n: nat)
    requires n > 0 && n % 2 == 0
    ensures |Tail(s, n)| % 2 == |s| % 2
  {
    if |s| >= n {
      TailParity(s[n..], n);
    }
  }

  /** Blocking is incremental: only the leftover of the first part matters to the second. */
  lemma {:induction false} BlocksAppend<T>(a: seq<T>, b: seq<T>, n: nat)
    requires n > 0
    ensures Blocks(a + b, n) == Blocks(a, n) + Blocks(Tail(a, n) + b, n)
    ensures Tail(a + b, n) == Tail(Tail(a, n) + b, n)
  {
    if |a| >= n {
      assert (a + b)[..n] == a[..n];
      assert (a + b)[n..] == a[n..] + b;
      BlocksAppend(a[n..], b, n);
    }
  }
}
