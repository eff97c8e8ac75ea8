/**
 * The fixed-window rate limiter wrapped around a view handler.
 *
 * A limit is a key function, a rate text "N/p" and a method filter. Each
 * request that the filter selects reads the cache entry
 * `ratelimit:<handler>:<client key>`, holding a request count and the start of
 * the current window, and is either let through to the handler (opening a new
 * window or counting one more request in the current one) or answered with
 * status 429. Time is whole seconds, passed in by the caller.
 */
module RateLimit {
  import opened Wrappers
  import Text
  import Decimal

  /** The parts of an incoming request that the limiter reads. */
  datatype Request = Request(
    verb: string,                  // the HTTP method
    forwardedFor: Option<string>,  // the X-Forwarded-For header (HTTP_X_FORWARDED_FOR)
    remoteAddr: Option<string>)    // REMOTE_ADDR

  /**
   * `get_client_ip`: the text before the first comma of a present, non-empty
   * X-Forwarded-For header (not trimmed), otherwise REMOTE_ADDR, which may be
   * missing.
   */
  function ClientIp(req: Request): (ip: Option<string>)
    ensures req.forwardedFor.Some? && req.forwardedFor.value != [] ==>
      var header := req.forwardedFor.value;
      && ip.Some?
      && ip.value <= header
      && ',' !in ip.value
      && (|ip.value| == |header| || header[|ip.value|] == ',')
    ensures !(req.forwardedFor.Some? && req.forwardedFor.value != []) ==> ip == req.remoteAddr
  {
    if req.forwardedFor.Some? && req.forwardedFor.value != [] then
      Text.SplitFirst(req.forwardedFor.value, ',');
      Some(Text.Split(req.forwardedFor.value, ',')[0])
    else
      req.remoteAddr
  }

  /** A parsed rate: at most `requests` requests per `periodSeconds`. */
  datatype Rate = Rate(requests: int, periodSeconds: nat)

  /** The `ValueError`s that parsing a rate text raises. */
  datatype RateError =
    | WrongPartCount(parts: nat)   // "N/p" unpacked into other than two pieces
    | NotAnInteger(text: string)   // `int(N)` failed

  /** The period table: s, m, h and d, any other unit counting as a minute. */
  function PeriodSeconds(unit: string): (seconds: nat)
    ensures seconds >= 1
    ensures unit == "s" ==> seconds == 1
    ensures unit == "m" ==> seconds == 60
    ensures unit == "h" ==> seconds == 3600
    ensures unit == "d" ==> seconds == 86400
    ensures unit !in {"s", "m", "h", "d"} ==> seconds == 60
  {
    var mapping := map["s" := 1, "m" := 60, "h" := 3600, "d" := 86400];
    if unit in mapping then mapping[unit] else 60
  }

  /** `num_requests, period = rate.split("/")` followed by `int(num_requests)`. */
  function ParseRate(rate: string): (r: Result<Rate, RateError>)
    ensures r.Success? <==>
      Text.Count(rate, '/') == 1 && Decimal.ParseInt(Text.Split(rate, '/')[0]).Some?
  {
    Text.SplitLength(rate, '/');
    var parts := Text.Split(rate, '/');
    if |parts| != 2 then Failure(WrongPartCount(|parts|))
    else
      match Decimal.ParseInt(parts[0])
      case None => Failure(NotAnInteger(parts[0]))
      case Some(n) => Success(Rate(n, PeriodSeconds(parts[1])))
  }

  /** Splitting `a + [sep] + b` when `a` holds no separator. */
  lemma {:induction false} SplitAfterFirst(a: string, b: string, sep: char)
    requires sep !in a
    ensures Text.Split(a + [sep] + b, sep) == [a] + Text.Split(b, sep)
  {
    if a == [] {
      assert a + [sep] + b == [sep] + b;
    } else {
      var s := a + [sep] + b;
      assert s[0] == a[0] && s[1..] == a[1..] + [sep] + b;
      SplitAfterFirst(a[1..], b, sep);
      assert [s[0]] + a[1..] == a;
    }
  }

  /** A string without the separator splits into itself alone. */
  lemma {:induction false} SplitNoSeparator(s: string, sep: char)
    requires sep !in s
    ensures Text.Split(s, sep) == [s]
  {
    if s != [] {
      SplitNoSeparator(s[1..], sep);
    }
  }

  /** A rate written "N/p" with an integer N reads back as N per the unit's period. */
  lemma RateRoundTrip(n: int, unit: string)
    requires '/' !in unit
    ensures ParseRate(Decimal.IntToString(n) + "/" + unit) == Success(Rate(n, PeriodSeconds(unit)))
  {
    var text := Decimal.IntToString(n);
    assert '/' !in text by {
      if n < 0 {
        assert text == "-" + Decimal.DigitsOf(-n);
        assert forall i | 1 <= i < |text| :: Decimal.IsDigit(text[i]);
      }
    }
    SplitAfterFirst(text, unit, '/');
    SplitNoSeparator(unit, '/');
    Decimal.IntRoundTrip(n);
  }

  /** The f-string rendering of the key function's result (`None` prints as "None"). */
  function KeySuffix(key: Option<string>): string
  {
    match key
    case Some(s) => s
    case None => "None"
  }

  function CacheKey(handler: string, suffix: string): string
  {
    "ratelimit:" + handler + ":" + suffix
  }

  /** In `h + ":" + s` with a colon-free `h`, the first colon is at index `|h|`. */
  lemma FirstColon(h: string, s: string)
    requires ':' !in h
    ensures (h + ":" + s)[|h|] == ':'
    ensures forall i | 0 <= i < |h| :: (h + ":" + s)[i] != ':'
  {
    assert forall i | 0 <= i < |h| :: (h + ":" + s)[i] == h[i];
  }

  /**
   * Handler names are Python identifiers and hold no colon; for such names
   * two cache keys coincide only for the same handler and the same client key.
   */
  lemma CacheKeyInjective(h1: string, s1: string, h2: string, s2: string)
    requires ':' !in h1 && ':' !in h2
    requires CacheKey(h1, s1) == CacheKey(h2, s2)
    ensures h1 == h2 && s1 == s2
  {
    var a, b := h1 + ":" + s1, h2 + ":" + s2;
    assert a == CacheKey(h1, s1)[10..] && b == CacheKey(h2, s2)[10..];
    FirstColon(h1, s1);
    FirstColon(h2, s2);
    if |h1| < |h2| {
      assert false;
    } else if |h2| < |h1| {
      assert false;
    }
    assert h1 == a[..|h1|] && h2 == b[..|h2|];
    assert s1 == a[|h1| + 1..] && s2 == b[|h2| + 1..];
  }

  /** The cached record `{"count": …, "start_time": …}`. */
  datatype Entry = Entry(count: int, startTime: int)

  /** A cache slot: the record and the second at which the cache drops it. */
  datatype Slot = Slot(data: Entry, expiresAt: int)

  type Cache = map<string, Slot>

  /** `cache.get(key, {"count": 0, "start_time": now})`: a live slot's record, else the default. */
  function Get(cache: Cache, key: string, now: int): Entry
  {
    if key in cache && now < cache[key].expiresAt then cache[key].data else Entry(0, now)
  }

  /** `cache.set(key, data, timeout)`. */
  function Set(cache: Cache, key: string, data: Entry, timeout: int, now: int): Cache
  {
    cache[key := Slot(data, now + timeout)]
  }

  const TooManyRequestsStatus: nat := 429
  const TooManyRequestsDetail: string := "Too many requests. Try again later."

  /** What one call of the wrapper does with the request. */
  datatype Verdict =
    | Called                             // the wrapped handler runs
    | Rejected(status: nat, detail: string)  // the 429 response
    | Raised(error: RateError)           // a malformed rate raises ValueError

  /** The arguments of `ratelimit(key_func, rate, method="ALL")`. */
  datatype Limit = Limit(keyFunc: Request -> Option<string>, rate: string, verb: string)

  predicate Applies(limit: Limit, req: Request)
  {
    limit.verb == "ALL" || req.verb == limit.verb
  }

  function KeyFor(limit: Limit, handler: string, req: Request): string
  {
    CacheKey(handler, KeySuffix(limit.keyFunc(req)))
  }

  datatype Effect = Effect(verdict: Verdict, cache: Cache)

  /** The window decision for one counted request on `key`. */
  function Window(cache: Cache, key: string, rate: Rate, now: int): Effect
  {
    var data := Get(cache, key, now);
    var elapsed := now - data.startTime;
    if elapsed >= rate.periodSeconds then
      Effect(Called, Set(cache, key, Entry(1, now), rate.periodSeconds, now))
    else if data.count < rate.requests then
      Effect(Called, Set(cache, key, Entry(data.count + 1, data.startTime), rate.periodSeconds - elapsed, now))
    else
      Effect(Rejected(TooManyRequestsStatus, TooManyRequestsDetail), cache)
  }

  /**
   * One call of `wrapper(self, request)` for the handler called `handler`.
   * Whatever happens, only the request's own cache key can change.
   */
  function Wrap(cache: Cache, limit: Limit, handler: string, req: Request, now: int): (e: Effect)
    ensures e.cache.Keys <= cache.Keys + {KeyFor(limit, handler, req)}
    ensures forall k | k in cache && k != KeyFor(limit, handler, req) :: k in e.cache && e.cache[k] == cache[k]
  {
    if !Applies(limit, req) then Effect(Called, cache)
    else
      match ParseRate(limit.rate)
      case Failure(err) => Effect(Raised(err), cache)
      case Success(rate) => Window(cache, KeyFor(limit, handler, req), rate, now)
  }

  /** A request the method filter does not select runs the handler and touches no counter. */
  lemma FilteredMethodBypasses(cache: Cache, limit: Limit, handler: string, req: Request, now: int)
    requires limit.verb != "ALL" && req.verb != limit.verb
    ensures Wrap(cache, limit, handler, req, now) == Effect(Called, cache)
  {
  }

  /** A malformed rate raises on every selected request, before any counter is read. */
  lemma MalformedRateRaises(cache: Cache, limit: Limit, handler: string, req: Request, now: int)
    requires Applies(limit, req) && ParseRate(limit.rate).Failure?
    ensures Wrap(cache, limit, handler, req, now) == Effect(Raised(ParseRate(limit.rate).error), cache)
  {
  }

  /** Once the window is over, the entry restarts at count 1 from now and the handler runs. */
  lemma WindowOverResets(cache: Cache, key: string, rate: Rate, now: int)
    requires now - Get(cache, key, now).startTime >= rate.periodSeconds
    ensures Window(cache, key, rate, now) ==
      Effect(Called, cache[key := Slot(Entry(1, now), now + rate.periodSeconds)])
  {
  }

  /**
   * Inside the window and under the limit, the count goes up by one, the
   * start stays, the timeout is the positive rest of the window (so the slot
   * expires exactly when the window closes) and the handler runs.
   */
  lemma InsideWindowCounts(cache: Cache, key: string, rate: Rate, now: int)
    requires var data := Get(cache, key, now);
      now - data.startTime < rate.periodSeconds && data.count < rate.requests
    ensures var data := Get(cache, key, now);
      var timeout := rate.periodSeconds - (now - data.startTime);
      && timeout > 0
      && Window(cache, key, rate, now) ==
         Effect(Called, cache[key := Slot(Entry(data.count + 1, data.startTime), now + timeout)])
      && now + timeout == data.startTime + rate.periodSeconds
  {
  }

  /** Inside the window at the limit, the answer is 429 and the cache is untouched. */
  lemma FullWindowRejects(cache: Cache, key: string, rate: Rate, now: int)
    requires var data := Get(cache, key, now);
      now - data.startTime < rate.periodSeconds && data.count >= rate.requests
    ensures Window(cache, key, rate, now) ==
      Effect(Rejected(429, "Too many requests. Try again later."), cache)
  {
  }

  /**
   * A slot as this limiter writes it: a positive count, at most the limit
   * when the limit is positive, and an expiry at the end of its window.
   */
  predicate SlotFits(slot: Slot, rate: Rate)
  {
    && slot.data.count >= 1
    && (rate.requests >= 1 ==> slot.data.count <= rate.requests)
    && slot.expiresAt == slot.data.startTime + rate.periodSeconds
  }

  predicate KeyFits(cache: Cache, key: string, rate: Rate)
  {
    key in cache ==> SlotFits(cache[key], rate)
  }

  /**
   * The counting invariant: every admitted request leaves its entry with
   * `1 <= count <= N` (for N >= 1), and the entry keeps the shape above.
   */
  lemma {:induction false} WindowKeepsFit(cache: Cache, key: string, rate: Rate, now: int)
    requires KeyFits(cache, key, rate)
    ensures KeyFits(Window(cache, key, rate, now).cache, key, rate)
    ensures Window(cache, key, rate, now).verdict == Called && rate.requests >= 1 ==>
      var data := Window(cache, key, rate, now).cache[key].data;
      1 <= data.count <= rate.requests
  {
    var data := Get(cache, key, now);
    assert data.count >= 0;
  }

  /**
   * On the model's one integer clock, a live slot that fits is inside its
   * window, so the reset branch is reached only through the default record
   * of a dropped entry. (The cache itself expires entries on the fractional
   * clock while `start_time` is whole seconds, so a still-live entry can reach
   * the reset branch in the last fraction of a second; `ExpiredEntryOpensWindow`
   * shows both routes write the same slot.)
   */
  lemma LiveSlotIsInsideWindow(cache: Cache, key: string, rate: Rate, now: int)
    requires KeyFits(cache, key, rate) && key in cache && now < cache[key].expiresAt
    ensures now - Get(cache, key, now).startTime < rate.periodSeconds
  {
  }

  /**
   * A request that finds no live entry, under a limit of at least one, opens
   * a window exactly as the reset branch does: count 1 from now, for one
   * period, and the handler runs.
   */
  lemma ExpiredEntryOpensWindow(cache: Cache, key: string, rate: Rate, now: int)
    requires rate.requests >= 1
    requires !(key in cache && now < cache[key].expiresAt)
    ensures Window(cache, key, rate, now) ==
      Effect(Called, cache[key := Slot(Entry(1, now), now + rate.periodSeconds)])
  {
  }

  /**
   * One call of a rate-limited handler: its decorator's arguments, the
   * handler's name, the request and the second it arrives.
   */
  datatype Call = Call(limit: Limit, handler: string, req: Request, now: int)

  /** The call is selected by its method filter and counted on `key`. */
  predicate OnKey(c: Call, key: string)
  {
    Applies(c.limit, c.req) && KeyFor(c.limit, c.handler, c.req) == key
  }

  /** How many calls counted on `key` reached their handler, and the cache after all of them. */
  datatype Tally = Tally(admitted: nat, cache: Cache)

  /**
   * The calls in arrival order through the one shared cache. They may come
   * from any handlers and any clients; only those counted on `key` that run
   * their handler are tallied.
   */
  function Run(cache: Cache, calls: seq<Call>, key: string): Tally
    decreases |calls|
  {
    if calls == [] then Tally(0, cache)
    else
      var c := calls[0];
      var e := Wrap(cache, c.limit, c.handler, c.req, c.now);
      var rest := Run(e.cache, calls[1..], key);
      Tally(rest.admitted + (if OnKey(c, key) && e.verdict.Called? then 1 else 0), rest.cache)
  }

  /** Every call counted on `key` parses its rate to `rate`. */
  predicate RatedOn(calls: seq<Call>, key: string, rate: Rate)
  {
    forall i | 0 <= i < |calls| :: OnKey(calls[i], key) ==> ParseRate(calls[i].limit.rate) == Success(rate)
  }

  /**
   * Before a slot at count `c` expires, at most `N - c` calls counted on its
   * key reach their handler, whatever other calls (other keys, unselected
   * methods) are interleaved with them.
   */
  lemma {:induction false} InsideWindowBound(cache: Cache, key: string, rate: Rate, calls: seq<Call>)
    requires rate.requests >= 1
    requires key in cache && SlotFits(cache[key], rate)
    requires RatedOn(calls, key, rate)
    requires forall i | 0 <= i < |calls| :: calls[i].now < cache[key].expiresAt
    ensures Run(cache, calls, key).admitted <= rate.requests - cache[key].data.count
    decreases |calls|
  {
    if calls != [] {
      var c := calls[0];
      var slot := cache[key];
      var e := Wrap(cache, c.limit, c.handler, c.req, c.now);
      if OnKey(c, key) {
        assert ParseRate(c.limit.rate) == Success(rate);
        assert e == Window(cache, key, rate, c.now);
        assert Get(cache, key, c.now) == slot.data;
        if slot.data.count < rate.requests {
          assert e.cache[key] == Slot(Entry(slot.data.count + 1, slot.data.startTime), slot.expiresAt);
        } else {
          assert e.cache == cache;
        }
      } else if Applies(c.limit, c.req) {
        assert KeyFor(c.limit, c.handler, c.req) != key;
        assert e.cache[key] == slot;
      } else {
        assert e.cache == cache;
      }
      assert forall i | 0 <= i < |calls[1..]| :: calls[1..][i] == calls[i + 1];
      InsideWindowBound(e.cache, key, rate, calls[1..]);
    }
  }

  /**
   * At most N calls per cache key reach their handler in one window: the
   * counted call `first` finds no live entry and opens a window, and every
   * later call counted on that key before the window closes is counted
   * against N, however the calls on other keys interleave with them.
   */
  lemma AtMostNPerWindow(cache: Cache, key: string, rate: Rate, first: Call, calls: seq<Call>)
    requires rate.requests >= 1
    requires OnKey(first, key) && RatedOn([first] + calls, key, rate)
    requires !(key in cache && first.now < cache[key].expiresAt)
    requires forall i | 0 <= i < |calls| :: calls[i].now < first.now + rate.periodSeconds
    ensures Run(cache, [first] + calls, key).admitted <= rate.requests
  {
    var all := [first] + calls;
    assert all[0] == first && all[1..] == calls;
    assert ParseRate(first.limit.rate) == Success(rate);
    var e := Wrap(cache, first.limit, first.handler, first.req, first.now);
    assert e == Window(cache, key, rate, first.now);
    assert e.cache[key] == Slot(Entry(1, first.now), first.now + rate.periodSeconds);
    forall i | 0 <= i < |calls| && OnKey(calls[i], key) ensures ParseRate(calls[i].limit.rate) == Success(rate) {
      assert calls[i] == all[i + 1];
    }
    InsideWindowBound(e.cache, key, rate, calls);
    assert Run(cache, all, key).admitted <= Run(e.cache, calls, key).admitted + 1;
  }

  /** The shared cache and the `wrapper` that every rate-limited handler goes through. */
  class RateLimiter {
    var cache: Cache

    constructor ()
      ensures cache == map[]
    {
      cache := map[];
    }

    /** One request through `wrapper`: the verdict and the new cache are those of `Wrap`. */
    method Wrapper(limit: Limit, handler: string, req: Request, now: int) returns (verdict: Verdict)
      modifies this
      ensures Effect(verdict, cache) == Wrap(old(cache), limit, handler, req, now)
    {
      if limit.verb != "ALL" && req.verb != limit.verb {
        return Called;
      }
      var parsed := ParseRate(limit.rate);
      if parsed.Failure? {
        return Raised(parsed.error);
      }
      var numRequests, periodSeconds := parsed.value.requests, parsed.value.periodSeconds;
      var cacheKey := CacheKey(handler, KeySuffix(limit.keyFunc(req)));
      var data := Get(cache, cacheKey, now);
      if now - data.startTime >= periodSeconds {
        data := Entry(1, now);
        cache := Set(cache, cacheKey, data, periodSeconds, now);
        return Called;
      }
      if data.count < numRequests {
        data := data.(count := data.count + 1);
        var remainingTime := periodSeconds - (now - data.startTime);
        cache := Set(cache, cacheKey, data, remainingTime, now);
        return Called;
      }
      return Rejected(TooManyRequestsStatus, TooManyRequestsDetail);
    }
  }
}
