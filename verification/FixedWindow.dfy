/** The Redis keys behind rate limits: fixed-window counters and keys that only expire. Times are milliseconds. */
module FixedWindow {
  import opened Seqs

  /** A stored value and, if it has one, the time from which it is gone. */
  datatype Entry = Entry(value: int, expiresAt: Option<int>)

  /** The keys of counters and cooldowns; their texts in Redis are all different. */
  datatype Key =
    | ApiKeyKey(apiKey: string) | IpKey(ip: string) | PhoneKey(phone: string) | TransferKey(phone: string)
    | SteerKey(callId: string)

  type Store = map<Key, Entry>

  predicate Live(s: Store, key: Key, now: int) {
    key in s && (s[key].expiresAt.Some? ==> now < s[key].expiresAt.value)
  }

  /** The counter value a hit finds, its own included. */
  function CountAfterHit(s: Store, key: Key, now: int): int {
    if Live(s, key, now) then s[key].value + 1 else 1
  }

  /** INCR, then EXPIRE if that opened the window. */
  function Hit(s: Store, key: Key, window: int, now: int): Store {
    var count := CountAfterHit(s, key, now);
    s[key := Entry(count, if count == 1 then Some(now + 1000 * window) else s[key].expiresAt)]
  }

  function Lookup(s: Store, key: Key): Option<Entry> {
    if key in s then Some(s[key]) else None
  }

  /** What a hit makes of what a key holds. */
  function EntryAfterHit(e: Option<Entry>, window: int, now: int): Entry {
    var live := e.Some? && (e.value.expiresAt.Some? ==> now < e.value.expiresAt.value);
    var count := if live then e.value.value + 1 else 1;
    Entry(count, if count == 1 then Some(now + 1000 * window) else e.value.expiresAt)
  }

  lemma HitLookup(s: Store, key: Key, window: int, now: int)
    ensures Lookup(Hit(s, key, window, now), key) == Some(EntryAfterHit(Lookup(s, key), window, now))
    ensures CountAfterHit(s, key, now) == EntryAfterHit(Lookup(s, key), window, now).value
  {
  }

  /** SETEX; Redis refuses a lifetime that is not positive. */
  function SetEx(s: Store, key: Key, seconds: int, now: int): Store {
    if seconds > 0 then s[key := Entry(1, Some(now + 1000 * seconds))] else s
  }

  class Redis {
    var store: Store

    constructor ()
      ensures store == map[]
    {
      store := map[];
    }

    /** The Lua script. */
    method IncrExpire(key: Key, window: int, now: int) returns (count: int)
      modifies this
      ensures count == CountAfterHit(old(store), key, now) && store == Hit(old(store), key, window, now)
    {
      if !(key in store && (store[key].expiresAt.Some? ==> now < store[key].expiresAt.value)) {
        store := store[key := Entry(0, None)];
      }
      store := store[key := Entry(store[key].value + 1, store[key].expiresAt)];
      count := store[key].value;
      if count == 1 {
        store := store[key := Entry(1, Some(now + 1000 * window))];
      }
    }

    method Exists(key: Key, now: int) returns (found: bool)
      ensures found == Live(store, key, now)
    {
      found := key in store && (store[key].expiresAt.Some? ==> now < store[key].expiresAt.value);
    }

    method StoreFor(key: Key, seconds: int, now: int)
      modifies this
      ensures store == SetEx(old(store), key, seconds, now)
    {
      if seconds > 0 {
        store := store[key := Entry(1, Some(now + 1000 * seconds))];
      }
    }
  }

  class RateLimiter {
    const redis: Redis?

    constructor (redis: Redis?)
      ensures this.redis == redis
    {
      this.redis := redis;
    }

    /** `reachable` says whether this command gets through; if not, the request passes uncounted. */
    method CheckFixedWindow(key: Key, limit: int, window: int, now: int, reachable: bool) returns (admitted: bool)
      modifies redis
      ensures redis == null || !reachable ==> admitted
      ensures redis != null && !reachable ==> redis.store == old(redis.store)
      ensures redis != null && reachable ==>
                && admitted == (CountAfterHit(old(redis.store), key, now) <= limit)
                && redis.store == Hit(old(redis.store), key, window, now)
    {
      if redis == null || !reachable {
        return true;
      }
      var count := redis.IncrExpire(key, window, now);
      admitted := count <= limit;
    }
  }

  // ---- One key, seen through its arrivals ----

  datatype Arrival = Arrival(at: int, limit: int, window: int)

  /** The arrival that opened the window in which arrival i falls. */
  function WindowStart(arrivals: seq<Arrival>, i: nat): (s: nat)
    requires i < |arrivals|
    ensures s <= i
  {
    if i == 0 then 0
    else
      var s := WindowStart(arrivals, i - 1);
      if arrivals[i].at < arrivals[s].at + 1000 * arrivals[s].window then s else i
  }

  /** Fewer than limit arrivals, rejected ones included, precede arrival i in its window. */
  predicate Admitted(arrivals: seq<Arrival>, i: nat)
    requires i < |arrivals|
  {
    i - WindowStart(arrivals, i) < arrivals[i].limit
  }

  function AfterHits(s: Store, key: Key, arrivals: seq<Arrival>): Store {
    if arrivals == [] then s
    else
      var n := |arrivals| - 1;
      Hit(AfterHits(s, key, arrivals[..n]), key, arrivals[n].window, arrivals[n].at)
  }

  lemma {:induction false} WindowStartOfPrefix(arrivals: seq<Arrival>, n: nat, i: nat)
    requires i < n <= |arrivals|
    ensures WindowStart(arrivals[..n], i) == WindowStart(arrivals, i)
  {
    if i > 0 {
      WindowStartOfPrefix(arrivals, n, i - 1);
    }
  }

  /** The counter is the history: its value counts the window's arrivals, and only the first of them set its expiry. */
  lemma {:induction false} CounterIsHistory(s: Store, key: Key, arrivals: seq<Arrival>)
    requires key !in s && arrivals != []
    ensures var n := |arrivals| - 1; var first := WindowStart(arrivals, n);
            var after := AfterHits(s, key, arrivals);
            key in after && after[key] == Entry(n - first + 1, Some(arrivals[first].at + 1000 * arrivals[first].window))
    decreases |arrivals|
  {
    var n := |arrivals| - 1;
    if n > 0 {
      CounterIsHistory(s, key, arrivals[..n]);
      WindowStartOfPrefix(arrivals, n, n - 1);
    }
  }

  /** A hit is admitted by its count exactly when the history says so. */
  lemma AdmissionIsHistory(s: Store, key: Key, arrivals: seq<Arrival>, i: nat)
    requires key !in s && i < |arrivals|
    ensures CountAfterHit(AfterHits(s, key, arrivals[..i]), key, arrivals[i].at) <= arrivals[i].limit
            <==> Admitted(arrivals, i)
  {
    if i > 0 {
      CounterIsHistory(s, key, arrivals[..i]);
      WindowStartOfPrefix(arrivals, i, i - 1);
    } else {
      assert arrivals[..0] == [];
    }
  }

  /** The first arrival once a window is over is admitted, however many were rejected before. */
  lemma ExpiredWindowAdmits(arrivals: seq<Arrival>, i: nat)
    requires 0 < i < |arrivals| && arrivals[i].limit >= 1
    requires var s := WindowStart(arrivals, i - 1); arrivals[i].at >= arrivals[s].at + 1000 * arrivals[s].window
    ensures Admitted(arrivals, i)
  {
  }

  // ---- How many requests get through ----

  /** Arrivals of one limit under a clock that does not run backwards. */
  predicate Uniform(arrivals: seq<Arrival>, limit: int, window: int) {
    && (forall i :: 0 <= i < |arrivals| ==> arrivals[i].limit == limit && arrivals[i].window == window)
    && (forall i, j :: 0 <= i < j < |arrivals| ==> arrivals[i].at <= arrivals[j].at)
  }

  /** How many of the first n arrivals are admitted at a time from `from` on and before `until`. */
  function AdmittedBetween(arrivals: seq<Arrival>, n: nat, from: int, until: int): nat
    requires n <= |arrivals|
  {
    if n == 0 then 0
    else AdmittedBetween(arrivals, n - 1, from, until)
         + if from <= arrivals[n - 1].at < until && Admitted(arrivals, n - 1) then 1 else 0
  }

  /**
   Index p is the first arrival in the interval. The window open then has used up one admission before p,
   unless p opened it; and then no second window opens inside the interval.
   */
  ghost predicate IntervalCount(arrivals: seq<Arrival>, n: nat, p: nat, count: int, limit: int, until: int)
    requires 0 < n <= |arrivals|
  {
    var s := WindowStart(arrivals, n - 1);
    && (p < n && arrivals[n - 1].at < until ==>
          && (s == p ==> count <= Min(n - s, limit))
          && (s < p ==> count <= Min(n - s, limit) - 1 || count == 0)
          && (s > p ==> count <= limit - 1 + Min(n - s, limit)))
    && (n <= p ==> count == 0)
  }

  lemma {:induction false} CountInInterval(
    arrivals: seq<Arrival>, limit: int, window: int, from: int, p: nat, n: nat)
    requires Uniform(arrivals, limit, window) && limit >= 1 && window > 0 && 0 < n <= |arrivals| && p <= |arrivals|
    requires forall i :: 0 <= i < |arrivals| ==> (i < p <==> arrivals[i].at < from)
    ensures var until := from + 1000 * window; var count := AdmittedBetween(arrivals, n, from, until);
            count <= 2 * limit - 1 && IntervalCount(arrivals, n, p, count, limit, until)
  {
    if n > 1 {
      CountInInterval(arrivals, limit, window, from, p, n - 1);
      CountStep(arrivals, limit, window, from, p, n - 1);
    }
  }

  lemma CountStep(arrivals: seq<Arrival>, limit: int, window: int, from: int, p: nat, n: nat)
    requires Uniform(arrivals, limit, window) && limit >= 1 && window > 0 && 0 < n < |arrivals| && p <= |arrivals|
    requires forall i :: 0 <= i < |arrivals| ==> (i < p <==> arrivals[i].at < from)
    requires var until := from + 1000 * window; var count := AdmittedBetween(arrivals, n, from, until);
             count <= 2 * limit - 1 && IntervalCount(arrivals, n, p, count, limit, until)
    ensures var until := from + 1000 * window; var count := AdmittedBetween(arrivals, n + 1, from, until);
            count <= 2 * limit - 1 && IntervalCount(arrivals, n + 1, p, count, limit, until)
  {
    var until := from + 1000 * window;
    var s, t := WindowStart(arrivals, n - 1), WindowStart(arrivals, n);
    assert arrivals[s].at <= arrivals[n - 1].at || s == n - 1;
    assert arrivals[n - 1].at <= arrivals[n].at;
    if p < n && arrivals[n].at < until && t == n {
      assert arrivals[p].at >= from;
      assert arrivals[s].at >= arrivals[p].at || s <= p;
      assert s < p;
    }
  }

  /** The first arrival at or after a time; earlier arrivals are earlier in the list. */
  lemma {:induction false} FirstFrom(arrivals: seq<Arrival>, from: int, n: nat) returns (p: nat)
    requires n <= |arrivals| && forall i, j :: 0 <= i < j < |arrivals| ==> arrivals[i].at <= arrivals[j].at
    ensures p <= n && forall i :: 0 <= i < n ==> (i < p <==> arrivals[i].at < from)
  {
    if n == 0 {
      p := 0;
    } else {
      p := FirstFrom(arrivals, from, n - 1);
      if p == n - 1 && arrivals[n - 1].at < from {
        p := n;
      } else if p < n - 1 {
        assert arrivals[p].at >= from;
      }
    }
  }

  /** No time interval as long as a window, wherever it starts, admits more than 2 * limit - 1 requests. */
  lemma IntervalBound(arrivals: seq<Arrival>, limit: int, window: int, from: int)
    requires Uniform(arrivals, limit, window) && window > 0
    ensures var count := AdmittedBetween(arrivals, |arrivals|, from, from + 1000 * window);
            if limit >= 1 then count <= 2 * limit - 1 else count == 0
  {
    if limit < 1 {
      NothingAdmitted(arrivals, limit, window, |arrivals|, from, from + 1000 * window);
    } else if arrivals != [] {
      var p := FirstFrom(arrivals, from, |arrivals|);
      CountInInterval(arrivals, limit, window, from, p, |arrivals|);
    }
  }

  lemma {:induction false} NothingAdmitted(
    arrivals: seq<Arrival>, limit: int, window: int, n: nat, from: int, until: int)
    requires Uniform(arrivals, limit, window) && limit < 1 && n <= |arrivals|
    ensures AdmittedBetween(arrivals, n, from, until) == 0
  {
    if n > 0 {
      NothingAdmitted(arrivals, limit, window, n - 1, from, until);
    }
  }

  /** How many of the first n arrivals fall in the window opened by arrival s, and how many of those are admitted. */
  function InWindow(arrivals: seq<Arrival>, n: nat, s: nat): nat
    requires n <= |arrivals|
  {
    if n == 0 then 0 else InWindow(arrivals, n - 1, s) + if WindowStart(arrivals, n - 1) == s then 1 else 0
  }

  function AdmittedInWindow(arrivals: seq<Arrival>, n: nat, s: nat): nat
    requires n <= |arrivals|
  {
    if n == 0 then 0
    else AdmittedInWindow(arrivals, n - 1, s)
         + if WindowStart(arrivals, n - 1) == s && Admitted(arrivals, n - 1) then 1 else 0
  }

  /** A window's arrivals follow each other without gaps. */
  lemma {:induction false} WindowContiguous(arrivals: seq<Arrival>, n: nat, s: nat)
    requires s < n <= |arrivals| && WindowStart(arrivals, s) == s
    ensures InWindow(arrivals, s, s) == 0
    ensures WindowStart(arrivals, n - 1) == s ==> InWindow(arrivals, n, s) == n - s
    ensures WindowStart(arrivals, n - 1) >= s
  {
    NoneBefore(arrivals, s, s);
    if n > s + 1 {
      WindowContiguous(arrivals, n - 1, s);
    }
  }

  lemma {:induction false} NoneBefore(arrivals: seq<Arrival>, n: nat, s: nat)
    requires n <= s <= |arrivals|
    ensures InWindow(arrivals, n, s) == AdmittedInWindow(arrivals, n, s) == 0
  {
    if n > 0 {
      NoneBefore(arrivals, n - 1, s);
    }
  }

  /** A window admits its arrivals up to the limit, and then no more. */
  lemma {:induction false} WindowQuota(arrivals: seq<Arrival>, limit: int, window: int, n: nat, s: nat)
    requires Uniform(arrivals, limit, window) && s < n <= |arrivals| && WindowStart(arrivals, s) == s
    ensures AdmittedInWindow(arrivals, n, s) == Min(InWindow(arrivals, n, s), Max(0, limit))
  {
    WindowContiguous(arrivals, n, s);
    if n > s + 1 {
      WindowQuota(arrivals, limit, window, n - 1, s);
      WindowContiguous(arrivals, n - 1, s);
    } else {
      NoneBefore(arrivals, s, s);
    }
  }

  /** One early request, the rest of its window's quota at the last moment, and a full quota right after. */
  function Burst(limit: nat, window: nat): seq<Arrival> {
    seq(2 * limit, i =>
      Arrival(if i == 0 then 0 else if i < limit then 1000 * window - 1 else 1000 * window, limit, window))
  }

  lemma {:induction false} BurstWindows(limit: nat, window: nat, i: nat)
    requires limit > 0 && window > 0 && i < 2 * limit
    ensures WindowStart(Burst(limit, window), i) == if i < limit then 0 else limit
  {
    if i > 0 {
      BurstWindows(limit, window, i - 1);
    }
  }

  lemma {:induction false} BurstCount(limit: nat, window: nat, n: nat)
    requires limit > 0 && window > 0 && 0 < n <= 2 * limit
    ensures AdmittedBetween(Burst(limit, window), n, 1000 * window - 1, 2000 * window - 1) == n - 1
  {
    BurstWindows(limit, window, n - 1);
    if n > 1 {
      BurstCount(limit, window, n - 1);
    }
  }

  /** The bound is reached. */
  lemma IntervalBoundReached(limit: nat, window: nat)
    requires limit > 0 && window > 0
    ensures var arrivals := Burst(limit, window); var from := 1000 * window - 1;
            && Uniform(arrivals, limit, window)
            && AdmittedBetween(arrivals, |arrivals|, from, from + 1000 * window) == 2 * limit - 1
  {
    BurstCount(limit, window, 2 * limit);
  }
}
