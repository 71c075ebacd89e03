/**
 The sliding-window rate limiter over an in-memory series of hits, in exact time.  Calls
 are sequential and the clock they read never goes back.
 */
module RateLimiter {
  import opened Wrappers

  type Tenant = nat

  datatype Refusal = RateLimitExceeded(retryAfter: real)

  // The hits of one tenant still held, and when the series expires.
  datatype Series = Series(hits: seq<real>, deadline: real)

  const SERIES_TTL_MULTIPLE: real := 2.0

  ghost predicate Sorted(hits: seq<real>) {
    forall i, j :: 0 <= i < j < |hits| ==> hits[i] <= hits[j]
  }

  // How many hits happened at or after `since`.
  ghost function CountSince(hits: seq<real>, since: real): nat {
    if hits == [] then 0
    else CountSince(hits[..|hits| - 1], since) + if hits[|hits| - 1] >= since then 1 else 0
  }

  lemma {:induction false} CountOfSorted(hits: seq<real>, since: real, k: nat)
    requires Sorted(hits) && k <= |hits|
    requires (forall i :: 0 <= i < k ==> hits[i] < since) && (forall i :: k <= i < |hits| ==> hits[i] >= since)
    ensures CountSince(hits, since) == |hits| - k
  {
    if hits != [] {
      var n := |hits| - 1;
      if k <= n {
        CountOfSorted(hits[..n], since, k);
      } else {
        CountOfSorted(hits[..n], since, n);
      }
    }
  }

  // ----- the bound

  // Any `rpm` + 1 consecutive grants span more than the window.
  ghost predicate Spaced(granted: seq<real>, rpm: nat, window: real) {
    forall i, j :: 0 <= i && j == i + rpm && j < |granted| ==> granted[j] - granted[i] > window
  }

  // The grants in the closed interval of the window's width that starts at `t`.
  ghost function GrantsIn(granted: seq<real>, window: real, t: real): set<nat> {
    set i: nat | i < |granted| && t <= granted[i] <= t + window
  }

  /** No closed interval of the window's width holds more than `rpm` grants. */
  lemma AtMostRpmInAnyWindow(granted: seq<real>, rpm: nat, window: real, t: real)
    requires Sorted(granted) && Spaced(granted, rpm, window)
    ensures |GrantsIn(granted, window, t)| <= rpm
  {
    var inside := GrantsIn(granted, window, t);
    var first := FirstSince(granted, t);
    if first + rpm < |granted| {
      assert granted[first + rpm] - granted[first] > window;
    }
    IntervalIsSmall(inside, first, rpm);
  }

  lemma {:induction false} IntervalIsSmall(s: set<nat>, a: nat, n: nat)
    requires forall x :: x in s ==> a <= x < a + n
    ensures |s| <= n
  {
    if n == 0 {
      assert s == {};
    } else {
      var last := a + n - 1;
      IntervalIsSmall(s - {last}, a, n - 1);
      if last in s {
        assert s == (s - {last}) + {last};
      } else {
        assert s - {last} == s;
      }
    }
  }

  // ----- when a call is granted

  ghost predicate WouldGrant(granted: seq<real>, rpm: nat, window: real, now: real) {
    CountSince(granted, now - window) < rpm
  }

  // What a history looks like when a call at `now` is refused: exactly `rpm` hits are in the
  // window, the oldest of them `rpm` places from the end.
  lemma FullWindow(granted: seq<real>, rpm: nat, window: real, now: real)
    requires rpm > 0 && Sorted(granted) && Spaced(granted, rpm, window)
    requires forall i :: 0 <= i < |granted| ==> granted[i] <= now
    requires !WouldGrant(granted, rpm, window, now)
    ensures CountSince(granted, now - window) == rpm <= |granted| && granted[|granted| - rpm] >= now - window
  {
    var k := FirstSince(granted, now - window);
    CountOfSorted(granted, now - window, k);
    if |granted| > rpm {
      assert granted[|granted| - 1] - granted[|granted| - rpm - 1] > window;
    }
  }

  lemma {:induction false} FirstSince(hits: seq<real>, since: real) returns (k: nat)
    requires Sorted(hits)
    ensures k <= |hits|
    ensures (forall i :: 0 <= i < k ==> hits[i] < since) && (forall i :: k <= i < |hits| ==> hits[i] >= since)
  {
    if hits == [] || hits[|hits| - 1] < since {
      k := |hits|;
    } else {
      k := FirstSince(hits[..|hits| - 1], since);
    }
  }

  /**
   After a refusal with no other calls, a retry succeeds exactly when it comes strictly later
   than `retry_after`: at exactly that moment the inclusive window still counts the oldest hit.
   */
  lemma RetrySucceedsExactlyAfter(granted: seq<real>, rpm: nat, window: real, now: real, retry: real)
    requires rpm > 0 && window > 0.0 && Sorted(granted) && Spaced(granted, rpm, window)
    requires forall i :: 0 <= i < |granted| ==> granted[i] <= now
    requires !WouldGrant(granted, rpm, window, now) && retry >= now
    ensures rpm <= |granted|
    ensures WouldGrant(granted, rpm, window, retry) <==> retry - now > granted[|granted| - rpm] + window - now
  {
    FullWindow(granted, rpm, window, now);
    var k := FirstSince(granted, retry - window);
    CountOfSorted(granted, retry - window, k);
  }

  // ----- what the cache holds of a history

  // `held` is the end of the history `all`, what was let go has left the window, and nothing
  // expires while it could still count.
  ghost predicate Accounts(all: seq<real>, held: seq<real>, rpm: nat, window: real, clock: real, deadline: real) {
    && Sorted(all) && Spaced(all, rpm, window)
    && (forall i :: 0 <= i < |all| ==> all[i] <= clock)
    && |held| <= |all| && held == all[|all| - |held|..]
    && (forall i :: 0 <= i < |all| - |held| ==> all[i] < clock - window)
    && (forall i :: 0 <= i < |held| ==> held[i] + SERIES_TTL_MULTIPLE * window <= deadline)
  }

  lemma ClockAdvances(all: seq<real>, held: seq<real>, rpm: nat, window: real, clock: real, now: real, deadline: real)
    requires Accounts(all, held, rpm, window, clock, deadline) && clock <= now
    ensures Accounts(all, held, rpm, window, now, deadline)
  {
  }

  lemma Pruned(all: seq<real>, held: seq<real>, k: nat, rpm: nat, window: real, now: real, deadline: real)
    requires Accounts(all, held, rpm, window, now, deadline)
    requires k <= |held| && forall i :: 0 <= i < k ==> held[i] < now - window
    ensures Accounts(all, held[k..], rpm, window, now, deadline)
  {
    var gone := |all| - |held|;
    forall i | 0 <= i < gone + k ensures all[i] < now - window {
      assert i >= gone ==> all[i] == held[i - gone];
    }
  }

  lemma ExpiredHitsAreOld(all: seq<real>, held: seq<real>, rpm: nat, window: real, now: real, deadline: real)
    requires Accounts(all, held, rpm, window, now, deadline) && window > 0.0 && deadline <= now
    ensures forall i :: 0 <= i < |held| ==> held[i] < now - window
  {
  }

  lemma HeldHitsAreTheWindow(all: seq<real>, held: seq<real>, rpm: nat, window: real, now: real, deadline: real)
    requires Accounts(all, held, rpm, window, now, deadline)
    requires forall i :: 0 <= i < |held| ==> held[i] >= now - window
    ensures CountSince(all, now - window) == |held|
  {
    var gone := |all| - |held|;
    forall i | gone <= i < |all| ensures all[i] >= now - window {
      assert all[i] == held[i - gone];
    }
    CountOfSorted(all, now - window, gone);
  }

  // With room in the window, the grant `rpm` places back has left it.
  lemma GrantKeepsSpacing(all: seq<real>, rpm: nat, window: real, now: real)
    requires Sorted(all) && Spaced(all, rpm, window) && rpm > 0 && WouldGrant(all, rpm, window, now)
    ensures Spaced(all + [now], rpm, window)
  {
    if rpm <= |all| {
      var k := FirstSince(all, now - window);
      CountOfSorted(all, now - window, k);
      assert all[|all| - rpm] < now - window;
    }
  }

  lemma GrantIsAccounted(all: seq<real>, held: seq<real>, rpm: nat, window: real, now: real, deadline: real)
    requires Accounts(all, held, rpm, window, now, deadline) && rpm > 0 && window > 0.0
    requires WouldGrant(all, rpm, window, now)
    ensures Accounts(all + [now], held + [now], rpm, window, now, now + SERIES_TTL_MULTIPLE * window)
  {
    hide Spaced, WouldGrant;
    GrantKeepsSpacing(all, rpm, window, now);
    var later, heldLater := all + [now], held + [now];
    assert later[|all| - |held|..] == heldLater;
    assert |later| - |heldLater| == |all| - |held|;
  }

  // ----- the cache

  /** The hit-window half of the in-process cache.  It reads no clock: `now` is the caller's. */
  class MemoryCache {
    var series: map<Tenant, Series>

    constructor ()
      ensures series == map[]
    {
      series := map[];
    }

    ghost function Held(tenant: Tenant): seq<real>
      reads this
    {
      if tenant in series then series[tenant].hits else []
    }

    ghost function Deadline(tenant: Tenant): real
      reads this
    {
      if tenant in series then series[tenant].deadline else 0.0
    }

    ghost predicate Expired(tenant: Tenant, now: real)
      reads this
    {
      tenant in series && series[tenant].deadline <= now
    }

    // The series, unless it has expired; an expired one is forgotten on the way.
    method LiveSeries(tenant: Tenant, now: real) returns (hits: seq<real>)
      modifies this
      ensures hits == Held(tenant)
      ensures series == if old(Expired(tenant, now)) then old(series) - {tenant} else old(series)
    {
      if tenant !in series {
        return [];
      }
      if series[tenant].deadline <= now {
        series := series - {tenant};
        return [];
      }
      return series[tenant].hits;
    }

    // Count the hits since `since`, dropping older ones: the first `dropped` of the series.
    method CountHits(tenant: Tenant, since: real, now: real) returns (count: nat, ghost dropped: nat)
      requires Sorted(Held(tenant))
      modifies this
      ensures dropped <= |old(Held(tenant))| && Held(tenant) == old(Held(tenant))[dropped..]
      ensures count == |Held(tenant)| && (forall i :: 0 <= i < count ==> Held(tenant)[i] >= since)
      ensures if old(Expired(tenant, now)) then count == 0
              else Deadline(tenant) == old(Deadline(tenant)) && forall i :: 0 <= i < dropped ==> old(Held(tenant))[i] < since
      ensures forall other :: other != tenant ==> Held(other) == old(Held(other)) && Deadline(other) == old(Deadline(other))
      ensures !Expired(tenant, now)
    {
      ghost var before := Held(tenant);
      var hits := LiveSeries(tenant, now);
      if hits == [] {
        return 0, |before|;
      }
      var first := BisectLeft(hits, since);
      if first > 0 {
        series := series[tenant := series[tenant].(hits := hits[first..])];
      }
      return |hits| - first, first;
    }

    // The earliest hit since `since`, if the series is live and holds one.
    method OldestHit(tenant: Tenant, since: real, now: real) returns (oldest: Option<real>)
      requires Sorted(Held(tenant))
      modifies this
      ensures series == if old(Expired(tenant, now)) then old(series) - {tenant} else old(series)
      ensures oldest.None? <==> forall i :: 0 <= i < |Held(tenant)| ==> Held(tenant)[i] < since
      ensures oldest.Some? ==> oldest.value >= since
      ensures oldest.Some? ==> exists i :: 0 <= i < |Held(tenant)| && Held(tenant)[i] == oldest.value
                                           && forall j :: 0 <= j < i ==> Held(tenant)[j] < since
    {
      var hits := LiveSeries(tenant, now);
      var first := BisectLeft(hits, since);
      if first < |hits| {
        assert Held(tenant)[first] >= since;
        return Some(hits[first]);
      }
      return None;
    }

    // Put a hit in its place, after its equals; hits may arrive out of order.
    method RecordHit(tenant: Tenant, at: real, deadline: real) returns (ghost k: nat)
      requires Sorted(Held(tenant))
      modifies this
      ensures k <= |old(Held(tenant))| && Held(tenant) == old(Held(tenant))[..k] + [at] + old(Held(tenant))[k..]
      ensures forall i :: 0 <= i < k ==> old(Held(tenant))[i] <= at
      ensures forall i :: k <= i < |old(Held(tenant))| ==> old(Held(tenant))[i] > at
      ensures Sorted(Held(tenant)) && Deadline(tenant) == deadline
      ensures forall other :: other != tenant ==> Held(other) == old(Held(other)) && Deadline(other) == old(Deadline(other))
    {
      var hits := if tenant in series then series[tenant].hits else [];
      assert hits == Held(tenant);
      var place := BisectRight(hits, at);
      series := series[tenant := Series(hits[..place] + [at] + hits[place..], deadline)];
      k := place;
    }
  }

  // Where `x` goes in a sorted sequence, before its equals.
  method BisectLeft(xs: seq<real>, x: real) returns (k: nat)
    requires Sorted(xs)
    ensures k <= |xs|
    ensures (forall i :: 0 <= i < k ==> xs[i] < x) && (forall i :: k <= i < |xs| ==> xs[i] >= x)
  {
    var lo, hi := 0, |xs|;
    while lo < hi
      invariant 0 <= lo <= hi <= |xs|
      invariant (forall i :: 0 <= i < lo ==> xs[i] < x) && (forall i :: hi <= i < |xs| ==> xs[i] >= x)
    {
      var mid := (lo + hi) / 2;
      if xs[mid] < x {
        lo := mid + 1;
      } else {
        hi := mid;
      }
    }
    k := lo;
  }

  // Where `x` goes in a sorted sequence, after its equals.
  method BisectRight(xs: seq<real>, x: real) returns (k: nat)
    requires Sorted(xs)
    ensures k <= |xs|
    ensures (forall i :: 0 <= i < k ==> xs[i] <= x) && (forall i :: k <= i < |xs| ==> xs[i] > x)
  {
    var lo, hi := 0, |xs|;
    while lo < hi
      invariant 0 <= lo <= hi <= |xs|
      invariant (forall i :: 0 <= i < lo ==> xs[i] <= x) && (forall i :: hi <= i < |xs| ==> xs[i] > x)
    {
      var mid := (lo + hi) / 2;
      if x < xs[mid] {
        hi := mid;
      } else {
        lo := mid + 1;
      }
    }
    k := lo;
  }

  // ----- the limiter

  class RateLimiter {
    const rpm: nat
    const window: real
    const cache: MemoryCache

    // Every grant ever made, and the last time the clock was read.
    ghost var granted: map<Tenant, seq<real>>
    ghost var clock: real

    ghost function Granted(tenant: Tenant): seq<real>
      reads this
    {
      if tenant in granted then granted[tenant] else []
    }

    ghost predicate Tracks(tenant: Tenant)
      reads this, cache
    {
      Accounts(Granted(tenant), cache.Held(tenant), rpm, window, clock, cache.Deadline(tenant))
    }

    ghost predicate Valid()
      reads this, cache
    {
      rpm > 0 && window > 0.0 && forall tenant: Tenant :: Tracks(tenant)
    }

    constructor (rpm: nat, window: real, cache: MemoryCache, ghost now: real)
      requires rpm > 0 && window > 0.0 && cache.series == map[]
      ensures Valid() && this.rpm == rpm && this.window == window && this.cache == cache && clock == now && granted == map[]
    {
      this.rpm, this.window, this.cache := rpm, window, cache;
      granted, clock := map[], now;
    }

    // The hits in the window, counted by the cache.
    method Count(tenant: Tenant, now: real) returns (count: nat)
      requires Valid() && now >= clock
      modifies this`clock, cache
      ensures Valid() && clock == now
      ensures count == CountSince(Granted(tenant), now - window) == |cache.Held(tenant)| && !cache.Expired(tenant, now)
      ensures forall i :: 0 <= i < count ==> cache.Held(tenant)[i] >= now - window
    {
      hide Accounts, Sorted, CountSince;
      ghost var all, held, deadline, before := Granted(tenant), cache.Held(tenant), cache.Deadline(tenant), clock;
      assert Tracks(tenant);
      HeldIsSorted(all, held, rpm, window, clock, deadline);
      ghost var dropped;
      count, dropped := cache.CountHits(tenant, now - window, now);
      clock := now;
      Counted(all, held, dropped, rpm, window, before, now, deadline, cache.Deadline(tenant));
      forall other: Tenant ensures Tracks(other) {
        if other != tenant {
          assert old(Tracks(other));
          ClockAdvances(Granted(other), cache.Held(other), rpm, window, before, now, cache.Deadline(other));
        }
      }
    }

    // Grant one call, or say how long to wait.  Only grants are recorded.
    method Acquire(tenant: Tenant, now: real) returns (r: Option<Refusal>)
      requires Valid() && now >= clock
      modifies this, cache
      ensures Valid() && clock == now
      ensures r.None? <==> WouldGrant(old(Granted(tenant)), rpm, window, now)
      ensures r.None? ==> granted == old(granted)[tenant := old(Granted(tenant)) + [now]]
      ensures r.Some? ==> granted == old(granted) && rpm <= |Granted(tenant)|
                          && r.value.retryAfter == Granted(tenant)[|Granted(tenant)| - rpm] + window - now
    {
      hide Accounts, Sorted, Spaced, CountSince;
      var count := Count(tenant, now);
      ghost var all, held, deadline := Granted(tenant), cache.Held(tenant), cache.Deadline(tenant);
      assert Tracks(tenant);
      if count >= rpm {
        FullSeries(all, held, rpm, window, now, deadline);
        HeldIsSorted(all, held, rpm, window, now, deadline);
        label Full:
        var oldest := cache.OldestHit(tenant, now - window, now);
        forall other: Tenant ensures Tracks(other) {
          assert old@Full(Tracks(other));
        }
        assert cache.Held(tenant) == held && held[0] >= now - window;
        assert oldest == Some(held[0]);
        var retryAfter := if oldest.None? then window else oldest.value + window - now;
        return Some(RateLimitExceeded(if retryAfter > 0.0 then retryAfter else 0.0));
      }
      HeldIsPast(all, held, rpm, window, now, deadline);
      HeldIsSorted(all, held, rpm, window, now, deadline);
      GrantIsAccounted(all, held, rpm, window, now, deadline);
      label Counted:
      ghost var k := cache.RecordHit(tenant, now, now + SERIES_TTL_MULTIPLE * window);
      assert held[..k] + [now] + held[k..] == held + [now];
      granted := granted[tenant := all + [now]];
      forall other: Tenant ensures Tracks(other) {
        if other != tenant {
          assert old@Counted(Tracks(other));
        }
      }
      return None;
    }

    // How many more calls would be granted now.
    method Remaining(tenant: Tenant, now: real) returns (left: nat)
      requires Valid() && now >= clock
      modifies this`clock, cache
      ensures Valid() && clock == now
      ensures left > 0 <==> WouldGrant(Granted(tenant), rpm, window, now)
      ensures left == rpm - CountSince(Granted(tenant), now - window)
    {
      hide Spaced;
      var used := Count(tenant, now);
      assert Tracks(tenant);
      left := if used < rpm then rpm - used else 0;
      if used >= rpm {
        FullSeries(Granted(tenant), cache.Held(tenant), rpm, window, now, cache.Deadline(tenant));
      }
    }
  }

  /** What `AtMostRpmInAnyWindow` says, of any limiter after any calls. */
  lemma NoTenantExceedsItsRate(limiter: RateLimiter, tenant: Tenant, t: real)
    requires limiter.Valid()
    ensures |GrantsIn(limiter.Granted(tenant), limiter.window, t)| <= limiter.rpm
  {
    assert limiter.Tracks(tenant);
    AtMostRpmInAnyWindow(limiter.Granted(tenant), limiter.rpm, limiter.window, t);
  }

  lemma HeldIsSorted(all: seq<real>, held: seq<real>, rpm: nat, window: real, clock: real, deadline: real)
    requires Accounts(all, held, rpm, window, clock, deadline)
    ensures Sorted(held)
  {
  }

  // Forgetting hits that have left the window, or a whole series that has expired, loses nothing.
  lemma Counted(all: seq<real>, held: seq<real>, dropped: nat, rpm: nat, window: real, clock: real, now: real,
                deadline: real, later: real)
    requires Accounts(all, held, rpm, window, clock, deadline) && clock <= now && window > 0.0 && dropped <= |held|
    requires if deadline <= now && dropped == |held| then true
             else later == deadline && forall i :: 0 <= i < dropped ==> held[i] < now - window
    requires forall i :: 0 <= i < |held[dropped..]| ==> held[dropped..][i] >= now - window
    ensures Accounts(all, held[dropped..], rpm, window, now, later)
    ensures CountSince(all, now - window) == |held[dropped..]|
  {
    hide Accounts, CountSince;
    ClockAdvances(all, held, rpm, window, clock, now, deadline);
    if deadline <= now {
      ExpiredHitsAreOld(all, held, rpm, window, now, deadline);
    }
    Pruned(all, held, dropped, rpm, window, now, deadline);
    if dropped == |held| {
      NothingHeld(all, held[dropped..], rpm, window, now, deadline, later);
    }
    HeldHitsAreTheWindow(all, held[dropped..], rpm, window, now, later);
  }

  lemma NothingHeld(all: seq<real>, held: seq<real>, rpm: nat, window: real, now: real, deadline: real, other: real)
    requires Accounts(all, held, rpm, window, now, deadline) && held == []
    ensures Accounts(all, held, rpm, window, now, other)
  {
  }

  lemma HeldIsPast(all: seq<real>, held: seq<real>, rpm: nat, window: real, clock: real, deadline: real)
    requires Accounts(all, held, rpm, window, clock, deadline)
    ensures forall i :: 0 <= i < |held| ==> held[i] <= clock
  {
  }

  // A full series holds exactly `rpm` hits, the oldest of them first.
  lemma FullSeries(all: seq<real>, held: seq<real>, rpm: nat, window: real, now: real, deadline: real)
    requires Accounts(all, held, rpm, window, now, deadline) && rpm > 0 && |held| >= rpm
    requires forall i :: 0 <= i < |held| ==> held[i] >= now - window
    ensures |held| == rpm <= |all| && held[0] == all[|all| - rpm] <= now
  {
    HeldHitsAreTheWindow(all, held, rpm, window, now, deadline);
    FullWindow(all, rpm, window, now);
  }
}
