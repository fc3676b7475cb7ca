/**
 The sliding-window limiter of public endpoints: for each address the times of its recent requests, kept in
 an array that is filtered in place. A call holds the limiter's mutex, so calls do not overlap; outside a
 call a bucket is shown as the sequence its array holds.
 */
module RateLimiter {
  type Time = int

  type Address = nat

  // ----- what the limiter has to compute -----

  datatype Request = Request(at: Time, limit: int)

  function After(ts: seq<Time>, cutoff: Time): (live: seq<Time>)
    ensures |live| <= |ts|
  {
    if ts == [] then []
    else After(ts[..|ts| - 1], cutoff) + if ts[|ts| - 1] > cutoff then [ts[|ts| - 1]] else []
  }

  function UpTo(ts: seq<Time>, t: Time): seq<Time> {
    if ts == [] then []
    else UpTo(ts[..|ts| - 1], t) + if ts[|ts| - 1] <= t then [ts[|ts| - 1]] else []
  }

  // The times in (t - window, t].
  function InWindow(ts: seq<Time>, t: Time, window: nat): seq<Time> { After(UpTo(ts, t), t - window) }

  /**
   The reference: all accepted times of an address, where nothing is ever forgotten. A request is accepted
   if fewer than its limit were accepted in the window before it.
   */
  function Accepted(rs: seq<Request>, window: nat): seq<Time> {
    if rs == [] then []
    else
      Decided(Accepted(rs[..|rs| - 1], window), rs[|rs| - 1], window)
  }

  // The accepted times after one more request.
  function Decided(before: seq<Time>, r: Request, window: nat): (ts: seq<Time>)
    ensures ts == before || ts == before + [r.at]
  {
    if |After(before, r.at - window)| < r.limit then before + [r.at] else before
  }

  // The clock never goes back.
  predicate InTime(rs: seq<Request>) {
    |rs| > 1 ==> rs[|rs| - 2].at <= rs[|rs| - 1].at && InTime(rs[..|rs| - 1])
  }

  ghost predicate AllUpTo(ts: seq<Time>, t: Time) { forall i | 0 <= i < |ts| :: ts[i] <= t }

  lemma {:induction false} AcceptedUpToLast(rs: seq<Request>, window: nat, t: Time)
    requires InTime(rs) && (rs != [] ==> rs[|rs| - 1].at <= t)
    ensures AllUpTo(Accepted(rs, window), t)
  {
    if rs != [] { AcceptedUpToLast(rs[..|rs| - 1], window, t); }
  }

  lemma {:induction false} AfterAppend(ts: seq<Time>, us: seq<Time>, cutoff: Time)
    ensures After(ts + us, cutoff) == After(ts, cutoff) + After(us, cutoff)
  {
    if us == [] {
      assert ts + us == ts;
    } else {
      AfterAppend(ts, us[..|us| - 1], cutoff);
      assert (ts + us)[..|ts + us| - 1] == ts + us[..|us| - 1];
    }
  }

  // Filtering at an earlier cutoff first makes no difference.
  lemma {:induction false} AfterTwice(ts: seq<Time>, early: Time, late: Time)
    requires early <= late
    ensures After(After(ts, early), late) == After(ts, late)
  {
    if ts != [] {
      var init, last := ts[..|ts| - 1], ts[|ts| - 1];
      AfterTwice(init, early, late);
      AfterAppend(After(init, early), if last > early then [last] else [], late);
    }
  }

  lemma {:induction false} AfterIsMonotone(ts: seq<Time>, early: Time, late: Time)
    requires early <= late
    ensures |After(ts, late)| <= |After(ts, early)|
  {
    if ts != [] { AfterIsMonotone(ts[..|ts| - 1], early, late); }
  }

  lemma {:induction false} UpToAll(ts: seq<Time>, t: Time)
    requires AllUpTo(ts, t)
    ensures UpTo(ts, t) == ts
  {
    if ts != [] { UpToAll(ts[..|ts| - 1], t); }
  }

  // Requests after t do not reach into the window that ends at t.
  lemma NothingInWindow(ts: seq<Time>, t: Time, window: nat, last: Time)
    requires last > t
    ensures InWindow(ts + [last], t, window) == InWindow(ts, t, window)
  {
    assert (ts + [last])[..|ts|] == ts;
    assert UpTo(ts + [last], t) == UpTo(ts, t) + [];
    assert UpTo(ts, t) + [] == UpTo(ts, t);
  }

  lemma {:induction false} OldIsGone(ts: seq<Time>, cutoff: Time)
    requires AllUpTo(ts, cutoff)
    ensures After(ts, cutoff) == []
  {
    if ts != [] { OldIsGone(ts[..|ts| - 1], cutoff); }
  }

  lemma TooEarly(ts: seq<Time>, t: Time, window: nat)
    requires AllUpTo(ts, t - window)
    ensures InWindow(ts, t, window) == []
  {
    UpToAll(ts, t);
    OldIsGone(ts, t - window);
  }

  lemma CoveredByLast(ts: seq<Time>, r: Request, t: Time, window: nat)
    requires AllUpTo(ts, r.at) && t - window < r.at <= t && |After(ts, r.at - window)| < r.limit
    ensures |InWindow(ts + [r.at], t, window)| <= r.limit
  {
    UpToAll(ts + [r.at], t);
    AfterAppend(ts, [r.at], t - window);
    AfterIsMonotone(ts, r.at - window, t - window);
  }

  lemma WindowAfterOneMore(ts: seq<Time>, r: Request, t: Time, window: nat)
    requires AllUpTo(ts, r.at)
    ensures var now := InWindow(Decided(ts, r, window), t, window);
            now == [] || now == InWindow(ts, t, window) || (t - window < r.at <= t && |now| <= r.limit)
  {
    if |After(ts, r.at - window)| < r.limit {
      if r.at <= t - window { TooEarly(ts + [r.at], t, window); }
      else if r.at > t { NothingInWindow(ts, t, window, r.at); }
      else { CoveredByLast(ts, r, t, window); }
    }
  }

  // The places of the times after a cutoff and up to t.
  ghost function PlacesIn(ts: seq<Time>, cutoff: Time, t: Time): set<int> { set i | 0 <= i < |ts| && cutoff < ts[i] <= t }

  ghost function PlacesAfter(ts: seq<Time>, cutoff: Time): set<int> { set i | 0 <= i < |ts| && cutoff < ts[i] }

  lemma {:induction false} AfterCounts(ts: seq<Time>, cutoff: Time)
    ensures |After(ts, cutoff)| == |PlacesAfter(ts, cutoff)|
  {
    if ts != [] {
      var n := |ts| - 1;
      AfterCounts(ts[..n], cutoff);
      PlaceAfterOneMore(ts, cutoff);
    }
  }

  lemma {:induction false} AfterMembers(ts: seq<Time>, cutoff: Time, x: Time)
    ensures multiset(After(ts, cutoff))[x] == if x > cutoff then multiset(ts)[x] else 0
  {
    if ts != [] {
      var init, last := ts[..|ts| - 1], ts[|ts| - 1];
      AfterMembers(init, cutoff, x);
      assert ts == init + [last];
    }
  }

  lemma PlaceAfterOneMore(ts: seq<Time>, cutoff: Time)
    requires ts != []
    ensures var n := |ts| - 1;
            && PlacesAfter(ts, cutoff) == PlacesAfter(ts[..n], cutoff) + (if ts[n] > cutoff then {n} else {})
            && n !in PlacesAfter(ts[..n], cutoff)
  {
    var n := |ts| - 1;
    assert forall i | 0 <= i < n :: ts[..n][i] == ts[i];
  }

  lemma PlaceInOneMore(ts: seq<Time>, cutoff: Time, t: Time)
    requires ts != []
    ensures var n := |ts| - 1;
            && PlacesIn(ts, cutoff, t) == PlacesIn(ts[..n], cutoff, t) + (if cutoff < ts[n] <= t then {n} else {})
            && n !in PlacesIn(ts[..n], cutoff, t)
  {
    var n := |ts| - 1;
    assert forall i | 0 <= i < n :: ts[..n][i] == ts[i];
  }

  /** A window holds as many times as there are places with a time later than its begin and not after its end. */
  lemma {:induction false} WindowCounts(ts: seq<Time>, t: Time, window: nat)
    ensures |InWindow(ts, t, window)| == |PlacesIn(ts, t - window, t)|
  {
    if ts != [] {
      var n := |ts| - 1;
      WindowCounts(ts[..n], t, window);
      PlaceInOneMore(ts, t - window, t);
      WindowOneMore(ts, t, window);
    }
  }

  lemma WindowOneMore(ts: seq<Time>, t: Time, window: nat)
    requires ts != []
    ensures var n := |ts| - 1;
            InWindow(ts, t, window) == InWindow(ts[..n], t, window) + if t - window < ts[n] <= t then [ts[n]] else []
  {
    var init, last := ts[..|ts| - 1], ts[|ts| - 1];
    AfterOne(last, t - window);
    if last <= t {
      AfterAppend(UpTo(init, t), [last], t - window);
    } else {
      assert UpTo(ts, t) == UpTo(init, t) + [] == UpTo(init, t);
    }
  }

  lemma AfterOne(x: Time, cutoff: Time)
    ensures After([x], cutoff) == (if x > cutoff then [x] else []) && After([], cutoff) == []
  {
    assert [x][..0] == [];
  }

  /**
   Of the requests accepted in any window of the given length, the last one was accepted under a limit
   that covers them all, even if the limit has been changed in between.
   */
  lemma {:induction false} WindowIsCovered(rs: seq<Request>, window: nat, t: Time) returns (k: nat)
    requires InTime(rs)
    ensures var accepted := InWindow(Accepted(rs, window), t, window);
            accepted == [] || (k < |rs| && t - window < rs[k].at <= t && |accepted| <= rs[k].limit)
  {
    k := 0;
    if rs != [] {
      var init, r := rs[..|rs| - 1], rs[|rs| - 1];
      AcceptedUpToLast(init, window, r.at);
      WindowAfterOneMore(Accepted(init, window), r, t, window);
      if InWindow(Accepted(rs, window), t, window) == InWindow(Accepted(init, window), t, window) {
        k := WindowIsCovered(init, window, t);
      } else {
        k := |rs| - 1;
      }
    }
  }

  /** With a fixed limit no window of the given length holds more than that many accepted requests. */
  lemma AtMostLimitInAnyWindow(rs: seq<Request>, window: nat, limit: nat, t: Time)
    requires InTime(rs) && forall i | 0 <= i < |rs| :: rs[i].limit == limit
    ensures |InWindow(Accepted(rs, window), t, window)| <= limit
    ensures |PlacesIn(Accepted(rs, window), t - window, t)| <= limit
  {
    WindowCounts(Accepted(rs, window), t, window);
    var k := WindowIsCovered(rs, window, t);
  }

  /** And a request is refused exactly if that many have been accepted in the window that ends with it. */
  lemma RefusedIffWindowIsFull(rs: seq<Request>, window: nat, limit: nat)
    requires InTime(rs) && rs != [] && forall i | 0 <= i < |rs| :: rs[i].limit == limit
    ensures var before, now := rs[..|rs| - 1], rs[|rs| - 1].at;
            Accepted(rs, window) == Accepted(before, window) <==> |PlacesIn(Accepted(before, window), now - window, now)| == limit
  {
    var before, now := rs[..|rs| - 1], rs[|rs| - 1].at;
    AcceptedUpToLast(before, window, now);
    UpToAll(Accepted(before, window), now);
    AtMostLimitInAnyWindow(before, window, limit, now);
    WindowCounts(Accepted(before, window), now, window);
  }

  // ----- the buckets -----

  /** The filter through `prev[:0]`: the kept times move to the front of the array they come from. */
  method KeepAfter(prev: array<Time>, cutoff: Time) returns (kept: nat)
    modifies prev
    ensures kept <= prev.Length && prev[..kept] == After(old(prev[..]), cutoff)
    ensures forall x :: multiset(prev[..kept])[x] == if x > cutoff then old(multiset(prev[..]))[x] else 0
  {
    ghost var was := prev[..];
    kept := 0;
    for i := 0 to prev.Length
      invariant kept <= i && prev[..kept] == After(was[..i], cutoff)
      invariant prev[i..] == was[i..]
    {
      assert was[..i + 1][..i] == was[..i];
      assert prev[i] == was[i] && prev[i + 1..] == was[i + 1..];
      if prev[i] > cutoff {
        prev[kept] := prev[i];
        kept := kept + 1;
      }
    }
    assert was[..prev.Length] == was;
    forall x
      ensures multiset(After(was, cutoff))[x] == if x > cutoff then multiset(was)[x] else 0
    {
      AfterMembers(was, cutoff, x);
    }
  }

  // The same for a bucket shown as a sequence, which an earlier decision has already filtered.
  method Filtered(bucket: seq<Time>, cutoff: Time, ghost ts: seq<Time>, ghost earlier: Time) returns (kept: seq<Time>)
    requires bucket == After(ts, earlier) && earlier <= cutoff
    ensures kept == After(ts, cutoff)
  {
    var prev := new Time[|bucket|](i requires 0 <= i < |bucket| => bucket[i]);
    assert prev[..] == bucket;
    var n := KeepAfter(prev, cutoff);
    AfterTwice(ts, earlier, cutoff);
    return prev[..n];
  }

  // What is kept for the next request: what was live, and the request itself if it was accepted.
  lemma KeptForNext(ts: seq<Time>, kept: seq<Time>, r: Request, window: nat)
    requires window > 0 && kept == After(ts, r.at - window)
    ensures After(Decided(ts, r, window), r.at - window) == kept + if |kept| < r.limit then [r.at] else []
    ensures Answers(ts, r, window, |kept| < r.limit, if |kept| < r.limit then r.limit - |kept| - 1 else 0)
  {
    AfterAppend(ts, [r.at], r.at - window);
    assert After([r.at], r.at - window) == After([], r.at - window) + [r.at];
  }

  // What an address has been given so far: all accepted times, and the time of its last request.
  datatype Seen = Seen(accepted: seq<Time>, last: Time)

  // The answer to a request: whether it is accepted, and how many more would be at the same time.
  predicate Answers(ts: seq<Time>, r: Request, window: nat, allowed: bool, remaining: int) {
    var used := |After(ts, r.at - window)|;
    allowed == (used < r.limit) && remaining == if allowed then r.limit - used - 1 else 0
  }

  // Both, by the places of the accepted times.
  lemma DecisionCounts(ts: seq<Time>, r: Request, window: nat)
    ensures var used := |PlacesAfter(ts, r.at - window)|;
            && Decided(ts, r, window) == (if used < r.limit then ts + [r.at] else ts)
            && forall allowed, remaining :: Answers(ts, r, window, allowed, remaining) <==>
                 allowed == (used < r.limit) && remaining == if used < r.limit then r.limit - used - 1 else 0
  {
    AfterCounts(ts, r.at - window);
  }

  class Limiter {
    const window: nat
    var limit: int
    var buckets: map<Address, seq<Time>>

    // For the specification only: here nothing is ever forgotten.
    ghost var seen: map<Address, Seen>

    // A bucket holds the accepted times that lie in the window of the address's last request.
    ghost predicate Valid()
      reads this
    {
      && window > 0 && seen.Keys == buckets.Keys
      && forall ip | ip in buckets :: buckets[ip] == After(seen[ip].accepted, seen[ip].last - window)
    }

    ghost function AcceptedFrom(ip: Address): seq<Time>
      reads this
    {
      if ip in seen then seen[ip].accepted else []
    }

    constructor (limit: int, window: nat)
      requires window > 0
      ensures Valid() && this.limit == limit && this.window == window && seen == map[]
    {
      this.limit, this.window, buckets, seen := limit, window, map[], map[];
    }

    method SetLimit(limit: int)
      requires Valid()
      modifies this`limit
      ensures Valid() && this.limit == limit
    {
      this.limit := limit;
    }

    // The times of the bucket that lie in the window that ends now.
    method Live(ip: Address, now: Time) returns (kept: seq<Time>)
      requires Valid() && (ip in seen ==> seen[ip].last <= now)
      ensures kept == After(AcceptedFrom(ip), now - window)
    {
      if ip !in buckets { return []; }
      kept := Filtered(buckets[ip], now - window, seen[ip].accepted, seen[ip].last - window);
    }

    method Store(ip: Address, bucket: seq<Time>, ghost entry: Seen)
      requires Valid() && bucket == After(entry.accepted, entry.last - window)
      modifies this`buckets, this`seen
      ensures Valid() && buckets == old(buckets)[ip := bucket] && seen == old(seen)[ip := entry]
    {
      buckets := buckets[ip := bucket];
      seen := seen[ip := entry];
    }

    // The decision, as the reference makes it.
    method Decide(ip: Address, now: Time) returns (allowed: bool, remaining: int)
      requires Valid() && (ip in seen ==> seen[ip].last <= now)
      modifies this
      ensures Valid() && limit == old(limit)
      ensures seen == old(seen)[ip := Seen(Decided(old(AcceptedFrom(ip)), Request(now, limit), window), now)]
      ensures Answers(old(AcceptedFrom(ip)), Request(now, limit), window, allowed, remaining)
    {
      ghost var accepted := AcceptedFrom(ip);
      var kept := Live(ip, now);
      KeptForNext(accepted, kept, Request(now, limit), window);
      ghost var entry := Seen(Decided(accepted, Request(now, limit), window), now);
      if |kept| >= limit {
        assert kept + [] == kept;
        Store(ip, kept, entry);
        return false, 0;
      }
      Store(ip, kept + [now], entry);
      return true, limit - |kept| - 1;
    }

    /**
     A request at a time not before the address's previous one is decided as if every accepted time
     had been kept: it is accepted if fewer than the limit were accepted in the window before it, and the
     number of requests still open is reported.
     */
    method Check(ip: Address, now: Time) returns (allowed: bool, remaining: int)
      requires Valid() && (ip in seen ==> seen[ip].last <= now)
      modifies this
      ensures Valid() && limit == old(limit)
      ensures seen == old(seen)[ip := Seen(Decided(old(AcceptedFrom(ip)), Request(now, limit), window), now)]
      ensures var used := |PlacesAfter(old(AcceptedFrom(ip)), now - window)|;
              && (allowed <==> used < limit)
              && remaining == (if allowed then limit - used - 1 else 0)
              && seen == old(seen)[ip := Seen(if allowed then old(AcceptedFrom(ip)) + [now] else old(AcceptedFrom(ip)), now)]
    {
      DecisionCounts(AcceptedFrom(ip), Request(now, limit), window);
      allowed, remaining := Decide(ip, now);
    }
  }

  lemma {:induction false} InTimePrefix(rs: seq<Request>, i: nat)
    requires InTime(rs) && i <= |rs|
    ensures InTime(rs[..i])
    decreases |rs|
  {
    if i < |rs| {
      InTimePrefix(rs[..|rs| - 1], i);
      assert rs[..|rs| - 1][..i] == rs[..i];
    } else {
      assert rs[..i] == rs;
    }
  }

  lemma OneMoreRequest(rs: seq<Request>, i: nat, window: nat)
    requires InTime(rs) && i < |rs|
    ensures Accepted(rs[..i + 1], window) == Decided(Accepted(rs[..i], window), rs[i], window)
    ensures i > 0 ==> rs[i - 1].at <= rs[i].at
  {
    InTimePrefix(rs, i + 1);
    assert rs[..i + 1][..i] == rs[..i];
  }

  /** A limiter that serves the requests of one address accepts exactly those that the reference accepts. */
  method Serve(limiter: Limiter, ip: Address, rs: seq<Request>)
    requires limiter.Valid() && ip !in limiter.seen && InTime(rs)
    modifies limiter
    ensures limiter.Valid() && limiter.AcceptedFrom(ip) == Accepted(rs, limiter.window)
  {
    for i := 0 to |rs|
      invariant limiter.Valid()
      invariant limiter.AcceptedFrom(ip) == Accepted(rs[..i], limiter.window)
      invariant ip in limiter.seen ==> i > 0 && limiter.seen[ip].last == rs[i - 1].at
    {
      OneMoreRequest(rs, i, limiter.window);
      limiter.SetLimit(rs[i].limit);
      var allowed, remaining := limiter.Check(ip, rs[i].at);
    }
    assert rs[..|rs|] == rs;
  }
}
