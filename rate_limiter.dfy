/**
 * The in-memory fixed-window rate limiter: per key, a request counter and the
 * time its window opened. The clock is a parameter (`now`, in milliseconds);
 * the periodic timer that runs the cleanup pass is not modelled, the pass
 * itself is.
 */
module RateLimiter {
  import opened Wrappers
  import Js

  /** The limiter's options after defaulting. */
  datatype Options = Options(windowMs: int, max: int, message: string, statusCode: int)

  /** `rateLimit()` with no options: one minute, 100 requests, status 429. */
  const Defaults: Options := Options(60 * 1000, 100, "Too many requests, please try again later.", 429)

  /** The three presets. */
  const ApiLimiter: Options := Options(15 * 60 * 1000, 100, "Too many API requests, please try again after 15 minutes.", 429)
  const AuthLimiter: Options := Options(60 * 60 * 1000, 10, "Too many authentication attempts, please try again after an hour.", 429)
  const StrictLimiter: Options := Options(60 * 1000, 10, "Rate limit exceeded. Please slow down.", 429)

  /** The default key: `req.ip || req.headers['x-forwarded-for'] || 'unknown'`. */
  function DefaultKey(ip: Option<string>, forwardedFor: Option<string>): (k: string)
    ensures Js.Truthy(ip) ==> k == ip.value
    ensures !Js.Truthy(ip) && Js.Truthy(forwardedFor) ==> k == forwardedFor.value
    ensures !Js.Truthy(ip) && !Js.Truthy(forwardedFor) ==> k == "unknown"
  {
    var k := Js.Or(Js.Or(ip, forwardedFor), Some("unknown"));
    k.value
  }

  /** One key's record: requests counted so far and when the window opened. */
  datatype Entry = Entry(count: int, startTime: int)

  /** What the middleware does with the request. */
  datatype Verdict =
    | Passed(remaining: Option<int>)   // `next()`; `remaining` is the X-RateLimit-Remaining header when it is set
    | Limited(statusCode: int, message: string, retryAfter: int)

  /** The window has passed: strictly more than `windowMs` since it opened. */
  predicate Expired(e: Entry, now: int, windowMs: int) {
    now - e.startTime > windowMs
  }

  /** The per-request closure, as a function of the map before the request. */
  function Admit(requests: map<string, Entry>, opts: Options, key: string, now: int): (r: (map<string, Entry>, Verdict))
    ensures key !in requests ==> r == (requests[key := Entry(1, now)], Passed(None))
    ensures key in requests && Expired(requests[key], now, opts.windowMs) ==>
              r == (requests[key := Entry(1, now)], Passed(None))
    ensures key in requests && !Expired(requests[key], now, opts.windowMs) && requests[key].count >= opts.max ==>
              r == (requests, Limited(opts.statusCode, opts.message,
                                      Js.CeilDiv(requests[key].startTime + opts.windowMs - now, 1000)))
    ensures key in requests && !Expired(requests[key], now, opts.windowMs) && requests[key].count < opts.max ==>
              && r.0 == requests[key := requests[key].(count := requests[key].count + 1)]
              && r.1 == Passed(Some(opts.max - (requests[key].count + 1)))
    ensures r.1.Passed? ==> key in r.0 && r.0[key].count <= if opts.max < 1 then 1 else opts.max
    ensures r.0.Keys == requests.Keys + {key}
    ensures forall k :: k in requests && k != key ==> r.0[k] == requests[k]
  {
    if key !in requests then (requests[key := Entry(1, now)], Passed(None))
    else
      var e := requests[key];
      if Expired(e, now, opts.windowMs) then (requests[key := Entry(1, now)], Passed(None))
      else if e.count >= opts.max then
        (requests, Limited(opts.statusCode, opts.message, Js.CeilDiv(e.startTime + opts.windowMs - now, 1000)))
      else
        var e' := e.(count := e.count + 1);
        (requests[key := e'], Passed(Some(opts.max - e'.count)))
  }

  /** Every counter is between 1 and the limit (or 1, for a limit below 1). */
  predicate Bounded(requests: map<string, Entry>, opts: Options) {
    forall k :: k in requests ==> 1 <= requests[k].count <= (if opts.max < 1 then 1 else opts.max)
  }

  /** No counter ever exceeds the limit: the closure keeps every counter bounded. */
  lemma AdmitKeepsBounded(requests: map<string, Entry>, opts: Options, key: string, now: int)
    requires Bounded(requests, opts)
    ensures Bounded(Admit(requests, opts, key, now).0, opts)
  {
  }

  /** A refused request is refused inside its window, so it is told to wait a non-negative number of seconds, and no longer than a whole window. */
  lemma RetryAfterWithinWindow(requests: map<string, Entry>, opts: Options, key: string, now: int)
    requires Admit(requests, opts, key, now).1.Limited?
    ensures Admit(requests, opts, key, now).1.retryAfter >= 0
    ensures now >= requests[key].startTime && opts.windowMs >= 0 ==>
              Admit(requests, opts, key, now).1.retryAfter <= Js.CeilDiv(opts.windowMs, 1000)
  {
    var e := requests[key];
    var a := e.startTime + opts.windowMs - now;
    assert a >= 0;
    var k := Js.CeilDiv(a, 1000);
    if now >= e.startTime && opts.windowMs >= 0 {
      var w := Js.CeilDiv(opts.windowMs, 1000);
      assert a <= opts.windowMs;
      assert (k - 1) * 1000 < a <= w * 1000;
    }
  }

  /** The requests for one key, in order, each at its own time. */
  function AdmitAll(requests: map<string, Entry>, opts: Options, key: string, times: seq<int>): (r: (map<string, Entry>, seq<Verdict>))
    ensures |r.1| == |times|
    decreases |times|
  {
    if times == [] then (requests, [])
    else
      var before := AdmitAll(requests, opts, key, times[..|times| - 1]);
      var step := Admit(before.0, opts, key, times[|times| - 1]);
      (step.0, before.1 + [step.1])
  }

  /**
   * Once a key has used up its window, every further request inside that
   * window is refused with the configured status and leaves the state as it
   * was.
   */
  lemma {:induction false} RefusedUntilWindowEnds(requests: map<string, Entry>, opts: Options, key: string, times: seq<int>)
    requires key in requests && requests[key].count >= opts.max
    requires forall i :: 0 <= i < |times| ==> !Expired(requests[key], times[i], opts.windowMs)
    ensures AdmitAll(requests, opts, key, times).0 == requests
    ensures forall i :: 0 <= i < |times| ==>
              AdmitAll(requests, opts, key, times).1[i].Limited? && AdmitAll(requests, opts, key, times).1[i].statusCode == opts.statusCode
    decreases |times|
  {
    if times != [] {
      var init := times[..|times| - 1];
      RefusedUntilWindowEnds(requests, opts, key, init);
      var before := AdmitAll(requests, opts, key, init);
      assert AdmitAll(requests, opts, key, times).1 == before.1 + [Admit(before.0, opts, key, times[|times| - 1]).1];
    }
  }

  /** The cleanup pass's result: exactly the entries whose window has not passed. */
  function Sweep(requests: map<string, Entry>, now: int, windowMs: int): (r: map<string, Entry>)
    ensures forall k :: k in r <==> k in requests && !Expired(requests[k], now, windowMs)
    ensures forall k :: k in r ==> r[k] == requests[k]
  {
    map k | k in requests && !Expired(requests[k], now, windowMs) :: requests[k]
  }

  /**
   * Cleanup is invisible to clients: a request answered after a cleanup pass
   * run at an earlier time gets the verdict it would have got without it,
   * and leaves the same entry for its key.
   */
  lemma SweepIsInvisible(requests: map<string, Entry>, opts: Options, key: string, swept: int, now: int)
    requires swept <= now
    ensures Admit(Sweep(requests, swept, opts.windowMs), opts, key, now).1 == Admit(requests, opts, key, now).1
    ensures Admit(Sweep(requests, swept, opts.windowMs), opts, key, now).0[key] == Admit(requests, opts, key, now).0[key]
  {
  }

  /** The limiter: its options and the live `requests` map. */
  class Limiter {
    const options: Options
    var requests: map<string, Entry>

    constructor (options: Options)
      ensures this.options == options && requests == map[]
    {
      this.options := options;
      requests := map[];
    }

    /** The middleware closure for one request with key `key` at time `now`. */
    method Handle(key: string, now: int) returns (v: Verdict)
      modifies this
      ensures (requests, v) == Admit(old(requests), options, key, now)
    {
      if key !in requests {
        requests := requests[key := Entry(1, now)];
        return Passed(None);
      }
      var data := requests[key];
      if now - data.startTime > options.windowMs {
        requests := requests[key := Entry(1, now)];
        return Passed(None);
      }
      if data.count >= options.max {
        var retryAfter := Js.CeilDiv(data.startTime + options.windowMs - now, 1000);
        return Limited(options.statusCode, options.message, retryAfter);
      }
      data := data.(count := data.count + 1);
      requests := requests[key := data];
      v := Passed(Some(options.max - data.count));
    }

    /** The cleanup pass: walk the entries and delete each expired one. */
    method Cleanup(now: int)
      modifies this
      ensures requests == Sweep(old(requests), now, options.windowMs)
    {
      var pending := requests.Keys;
      while pending != {}
        invariant pending <= requests.Keys <= old(requests).Keys
        invariant forall k :: k in requests ==> requests[k] == old(requests)[k]
        invariant forall k :: k in old(requests) && k !in pending ==>
                    (k in requests <==> !Expired(old(requests)[k], now, options.windowMs))
        decreases pending
      {
        var k :| k in pending;
        if now - requests[k].startTime > options.windowMs {
          requests := requests - {k};
        }
        pending := pending - {k};
      }
    }
  }
}
