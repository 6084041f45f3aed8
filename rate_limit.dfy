/** The fixed-window rate limiter: an in-memory map from client address to
    a request count and the end of its window. Every check first drops the
    entries whose window has ended, then admits a first request, counts a
    further one, or refuses one once the count has reached the limit. */
module RateLimit {
  import opened Wrappers
  import opened Strings

  /** Fifteen minutes, in milliseconds. */
  const WindowMs: int := 15 * 60 * 1000
  const MaxRequests: int := 10
  const LimitMessage: string := "Too many requests, please try again later"

  /** `RateLimitInfo`; `resetTime` is in milliseconds since the epoch. */
  datatype RateLimitInfo = RateLimitInfo(count: int, resetTime: int)

  /** What `checkRateLimit` returns. */
  datatype CheckResult = CheckResult(allowed: bool, remaining: int, resetTime: int, message: Option<string>)

  /** The new store and the answer. */
  datatype Checked = Checked(store: map<string, RateLimitInfo>, result: CheckResult)

  /** The request headers the limiter reads; None is a header that is
      absent. */
  datatype ClientHeaders = ClientHeaders(forwardedFor: Option<string>, realIp: Option<string>)

  /** `getRateLimitHeaders`; the reset time is kept as a number. */
  datatype RateLimitHeaders = RateLimitHeaders(limit: string, remaining: string, reset: int)

  // ---------------------------------------------------------------------
  // Client address

  /** A header value JavaScript treats as true: present and not empty. */
  predicate Truthy(h: Option<string>) {
    h.Some? && h.value != []
  }

  /** `getClientIp`: the first comma-separated piece of `x-forwarded-for`,
      trimmed; else `x-real-ip`; else `localhost`. */
  function ClientIp(h: ClientHeaders): (ip: string)
    ensures Truthy(h.forwardedFor) ==>
      var f := h.forwardedFor.value;
      exists n :: 0 <= n <= |f| && ',' !in f[..n] && (n == |f| || f[n] == ',') && ip == Trim(f[..n])
    ensures Truthy(h.forwardedFor) ==> IsTrimmed(ip) && ',' !in ip
    ensures !Truthy(h.forwardedFor) && Truthy(h.realIp) ==> ip == h.realIp.value
    ensures !Truthy(h.forwardedFor) && !Truthy(h.realIp) ==> ip == "localhost"
  {
    if Truthy(h.forwardedFor) then
      var f := h.forwardedFor.value;
      var first := SplitOn(f, ',')[0];
      SplitHead(f, ',');
      TrimIsSlice(first);
      assert ',' !in Trim(first) by {
        var k :| 0 <= k <= |first| - |Trim(first)| && Trim(first) == first[k..k + |Trim(first)|];
        assert forall i :: 0 <= i < |Trim(first)| ==> Trim(first)[i] == first[k + i];
      }
      Trim(first)
    else if Truthy(h.realIp) then h.realIp.value
    else "localhost"
  }

  // ---------------------------------------------------------------------
  // The store

  /** Every stored count lies in 1..MaxRequests. */
  predicate ValidStore(store: map<string, RateLimitInfo>) {
    forall ip :: ip in store ==> 1 <= store[ip].count <= MaxRequests
  }

  /** The store after the clean-up loop: the entries whose window has not
      ended. */
  function Swept(store: map<string, RateLimitInfo>, now: int): map<string, RateLimitInfo> {
    map ip | ip in store && store[ip].resetTime >= now :: store[ip]
  }

  /** The clean-up loop part way: the keys still pending are all kept. */
  function SweptExcept(store: map<string, RateLimitInfo>, pending: set<string>, now: int): map<string, RateLimitInfo> {
    map ip | ip in store && (ip in pending || store[ip].resetTime >= now) :: store[ip]
  }

  /** The decision on a store that has been swept. */
  function Decide(store: map<string, RateLimitInfo>, ip: string, now: int): Checked {
    if ip !in store || store[ip].resetTime < now then
      var info := RateLimitInfo(1, now + WindowMs);
      Checked(store[ip := info], CheckResult(true, MaxRequests - 1, info.resetTime, None))
    else if store[ip].count >= MaxRequests then
      Checked(store, CheckResult(false, 0, store[ip].resetTime, Some(LimitMessage)))
    else
      var info := store[ip].(count := store[ip].count + 1);
      Checked(store[ip := info], CheckResult(true, MaxRequests - info.count, info.resetTime, None))
  }

  /** `checkRateLimit(ip)` at time `now`, on a store value. */
  function Check(store: map<string, RateLimitInfo>, ip: string, now: int): Checked {
    Decide(Swept(store, now), ip, now)
  }

  /** The clean-up keeps exactly the entries whose window has not ended,
      unchanged. */
  lemma SweptExact(store: map<string, RateLimitInfo>, now: int)
    ensures forall ip :: ip in Swept(store, now) <==> ip in store && store[ip].resetTime >= now
    ensures forall ip :: ip in Swept(store, now) ==> Swept(store, now)[ip] == store[ip]
    ensures ValidStore(store) ==> ValidStore(Swept(store, now))
  {
  }

  /** A client with no live entry is admitted: its entry starts a new window
      with a count of one. */
  lemma CheckFirstRequest(store: map<string, RateLimitInfo>, ip: string, now: int)
    requires ip !in store || store[ip].resetTime < now
    ensures Check(store, ip, now).result == CheckResult(true, MaxRequests - 1, now + WindowMs, None)
    ensures Check(store, ip, now).store[ip] == RateLimitInfo(1, now + WindowMs)
  {
  }

  /** A client whose live entry has reached the limit is refused, and the
      store is only swept. */
  lemma CheckRefused(store: map<string, RateLimitInfo>, ip: string, now: int)
    requires ip in store && store[ip].resetTime >= now && store[ip].count >= MaxRequests
    ensures !Check(store, ip, now).result.allowed
    ensures Check(store, ip, now).result.remaining == 0
    ensures Check(store, ip, now).result.resetTime == store[ip].resetTime
    ensures Check(store, ip, now).result.message == Some(LimitMessage)
    ensures Check(store, ip, now).store == Swept(store, now)
  {
  }

  /** Otherwise the count goes up by exactly one within the same window. */
  lemma CheckCounted(store: map<string, RateLimitInfo>, ip: string, now: int)
    requires ip in store && store[ip].resetTime >= now && store[ip].count < MaxRequests
    ensures Check(store, ip, now).result.allowed
    ensures Check(store, ip, now).store[ip] == RateLimitInfo(store[ip].count + 1, store[ip].resetTime)
    ensures Check(store, ip, now).result.remaining == MaxRequests - (store[ip].count + 1)
  {
  }

  /** A check touches only the client's own entry. */
  lemma CheckOthersSwept(store: map<string, RateLimitInfo>, ip: string, now: int)
    ensures forall other :: other != ip ==>
      (other in Check(store, ip, now).store <==> other in Swept(store, now))
    ensures forall other :: other != ip && other in Swept(store, now) ==>
      Check(store, ip, now).store[other] == store[other]
  {
  }

  /** Checks keep every count in 1..MaxRequests, and the remaining number
      reported lies in 0..MaxRequests - 1. */
  lemma CheckKeepsValid(store: map<string, RateLimitInfo>, ip: string, now: int)
    requires ValidStore(store)
    ensures ValidStore(Check(store, ip, now).store)
    ensures 0 <= Check(store, ip, now).result.remaining <= MaxRequests - 1
    ensures Check(store, ip, now).result.allowed <==>
      !(ip in store && store[ip].resetTime >= now && store[ip].count >= MaxRequests)
  {
    SweptExact(store, now);
  }

  /** A run of checks by one client, at the given times; the second
      component counts the requests admitted. */
  function Replay(store: map<string, RateLimitInfo>, ip: string, times: seq<int>): (map<string, RateLimitInfo>, nat)
    decreases |times|
  {
    if times == [] then (store, 0)
    else
      var c := Check(store, ip, times[0]);
      var (s, n) := Replay(c.store, ip, times[1..]);
      (s, n + if c.result.allowed then 1 else 0)
  }

  /** Within one window at most MaxRequests requests are admitted: a client
      whose entry holds count c admits at most MaxRequests - c more before
      the window ends, and the window does not move. */
  lemma {:induction false} ReplayWithinWindow(store: map<string, RateLimitInfo>, ip: string, times: seq<int>)
    requires ip in store && 1 <= store[ip].count <= MaxRequests
    requires forall k :: 0 <= k < |times| ==> times[k] <= store[ip].resetTime
    ensures Replay(store, ip, times).1 <= MaxRequests - store[ip].count
    ensures ip in Replay(store, ip, times).0 && Replay(store, ip, times).0[ip].resetTime == store[ip].resetTime
    decreases |times|
  {
    if times != [] {
      var c := Check(store, ip, times[0]);
      assert ip in Swept(store, times[0]);
      assert c.store[ip].resetTime == store[ip].resetTime;
      assert c.store[ip].count == if store[ip].count >= MaxRequests then store[ip].count else store[ip].count + 1;
      ReplayWithinWindow(c.store, ip, times[1..]);
    }
  }

  /** In particular, of the requests a client makes from its first one until
      that window ends, at most MaxRequests are admitted. */
  lemma FirstWindowBound(store: map<string, RateLimitInfo>, ip: string, t0: int, times: seq<int>)
    requires ip !in store || store[ip].resetTime < t0
    requires forall k :: 0 <= k < |times| ==> times[k] <= t0 + WindowMs
    ensures Replay(store, ip, [t0] + times).1 <= MaxRequests
  {
    CheckFirstRequest(store, ip, t0);
    var c := Check(store, ip, t0);
    assert ([t0] + times)[1..] == times;
    ReplayWithinWindow(c.store, ip, times);
  }

  /** `getRateLimitHeaders`. */
  function Headers(info: CheckResult): RateLimitHeaders {
    RateLimitHeaders(IntToString(MaxRequests), IntToString(info.remaining), info.resetTime)
  }

  /** The limit and the remaining count read back as the numbers they
      print. */
  lemma HeadersRoundTrip(info: CheckResult)
    requires info.remaining >= 0
    ensures forall i :: 0 <= i < |Headers(info).limit| ==> IsDigit(Headers(info).limit[i])
    ensures forall i :: 0 <= i < |Headers(info).remaining| ==> IsDigit(Headers(info).remaining[i])
    ensures DecimalValue(Headers(info).limit) == MaxRequests
    ensures DecimalValue(Headers(info).remaining) == info.remaining
    ensures Headers(info).reset == info.resetTime
  {
    NatToStringRoundTrip(MaxRequests);
    NatToStringRoundTrip(info.remaining);
  }

  /** The module-level `rateLimitStore`. */
  class RateLimiter {
    var store: map<string, RateLimitInfo>

    constructor ()
      ensures store == map[]
    {
      store := map[];
    }

    /** The clean-up loop over the entries. */
    method Sweep(now: int)
      modifies this
      ensures store == Swept(old(store), now)
    {
      ghost var start := store;
      var pending := store.Keys;
      assert store == SweptExcept(start, pending, now);
      while pending != {}
        invariant pending <= start.Keys
        invariant store == SweptExcept(start, pending, now)
        decreases |pending|
      {
        var ip :| ip in pending;
        if store[ip].resetTime < now {
          store := map k | k in store && k != ip :: store[k];
        }
        pending := pending - {ip};
      }
      assert SweptExcept(start, {}, now) == Swept(start, now);
    }

    /** `checkRateLimit`. */
    method CheckRateLimit(clientIp: string, now: int) returns (r: CheckResult)
      modifies this
      ensures Checked(store, r) == Check(old(store), clientIp, now)
    {
      Sweep(now);
      if clientIp !in store || store[clientIp].resetTime < now {
        var info := RateLimitInfo(1, now + WindowMs);
        store := store[clientIp := info];
        return CheckResult(true, MaxRequests - 1, info.resetTime, None);
      }
      var current := store[clientIp];
      if current.count >= MaxRequests {
        return CheckResult(false, 0, current.resetTime, Some(LimitMessage));
      }
      current := current.(count := current.count + 1);
      store := store[clientIp := current];
      r := CheckResult(true, MaxRequests - current.count, current.resetTime, None);
    }
  }
}
