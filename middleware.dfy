/** `RateLimitMiddleware` of app/core/middleware.py: a per-client sliding
    window. Every governed request first drops the client's timestamps that
    are `period` or more seconds old; with `calls` or more left it is rejected
    with 429, otherwise its own time is appended and it is admitted. Time is
    in whole seconds. */
module RateLimit {
  import opened Wrappers
  import opened Text

  const DefaultCalls: int := 100
  const DefaultPeriod: int := 60

  /** The paths the limiter lets through untouched. */
  const HealthPaths: seq<string> := ["/health", "/api/v1/health"]

  /** The client's key: its host, or `"unknown"` when the request has no client. */
  function ClientKey(host: Option<string>): string {
    host.GetOr("unknown")
  }

  /** The most entries a client's window may hold. */
  function Capacity(calls: int): nat {
    if calls < 0 then 0 else calls
  }

  // ---------------------------------------------------------------------------
  // The window purge

  /** The timestamps of `ts` still inside the window at instant `now`
      (`now - t < period`), in their original order. */
  function Recent(ts: seq<int>, now: int, period: int): (r: seq<int>)
    ensures |r| <= |ts|
    ensures forall t :: t in r ==> t in ts && now - t < period
    ensures forall t :: t in ts && now - t < period ==> t in r
    decreases |ts|
  {
    if ts == [] then []
    else (if now - ts[0] < period then [ts[0]] else []) + Recent(ts[1..], now, period)
  }

  /** Purging distributes over concatenation: survivors keep their relative order. */
  lemma {:induction false} RecentAppend(a: seq<int>, b: seq<int>, now: int, period: int)
    ensures Recent(a + b, now, period) == Recent(a, now, period) + Recent(b, now, period)
    decreases |a|
  {
    if a != [] {
      assert (a + b)[1..] == a[1..] + b;
      RecentAppend(a[1..], b, now, period);
    } else {
      assert a + b == b;
    }
  }

  /** Purging at `earlier` and then at `later` is purging at `later`: a
      timestamp dropped once would be dropped again. */
  lemma {:induction false} RecentTwice(ts: seq<int>, earlier: int, later: int, period: int)
    requires earlier <= later
    ensures Recent(Recent(ts, earlier, period), later, period) == Recent(ts, later, period)
    decreases |ts|
  {
    if ts != [] {
      RecentTwice(ts[1..], earlier, later, period);
      var head := if earlier - ts[0] < period then [ts[0]] else [];
      RecentAppend(head, Recent(ts[1..], earlier, period), later, period);
    }
  }

  /** The list comprehension that rebuilds a client's window. */
  method PurgeWindow(ts: seq<int>, now: int, period: int) returns (kept: seq<int>)
    ensures kept == Recent(ts, now, period)
  {
    kept := [];
    for i := 0 to |ts|
      invariant kept == Recent(ts[..i], now, period)
    {
      RecentAppend(ts[..i], [ts[i]], now, period);
      assert ts[..i + 1] == ts[..i] + [ts[i]];
      if now - ts[i] < period {
        kept := kept + [ts[i]];
      }
    }
    assert ts[..|ts|] == ts;
  }

  // ---------------------------------------------------------------------------
  // One request

  /** `self.clients[key]`: a missing key reads as an empty list (`defaultdict(list)`). */
  function WindowOf(clients: map<string, seq<int>>, key: string): seq<int> {
    if key in clients then clients[key] else []
  }

  /** Every client's window is within capacity. */
  predicate WithinCapacity(clients: map<string, seq<int>>, calls: int) {
    forall k :: k in clients ==> |clients[k]| <= Capacity(calls)
  }

  datatype Request = Request(path: string, host: Option<string>, now: int)

  /** What the limiter does with a request: hand it on untouched, reject it
      with 429 and the message `RejectionDetail` renders from the limiter's
      `calls` and `period`, or hand it on and add the three rate-limit headers. */
  datatype Response =
    | PassedThrough
    | TooManyRequests(calls: int, period: int)
    | Admitted(limit: int, remaining: int, reset: int)

  datatype Outcome = Outcome(clients: map<string, seq<int>>, response: Response)

  /** The `detail` of the 429 body. */
  function RejectionDetail(calls: int, period: int): string {
    "Rate limit exceeded. Maximum " + IntToString(calls) + " requests per " + IntToString(period) + " seconds."
  }

  /** `dispatch` as a function of the window map before the request. */
  function Step(calls: int, period: int, clients: map<string, seq<int>>, req: Request): (o: Outcome)
    ensures req.path in HealthPaths ==> o == Outcome(clients, PassedThrough)
    ensures WithinCapacity(clients, calls) ==> WithinCapacity(o.clients, calls)
  {
    if req.path in HealthPaths then Outcome(clients, PassedThrough)
    else
      var key := ClientKey(req.host);
      var window := Recent(WindowOf(clients, key), req.now, period);
      if |window| >= calls then
        Outcome(clients[key := window], TooManyRequests(calls, period))
      else
        var updated := clients[key := window + [req.now]];
        Outcome(updated, Admitted(calls, Max(0, calls - |updated[key]|), req.now + period))
  }

  /** A governed request: only the caller's entry changes; it is rejected
      exactly when its purged window already holds `calls` timestamps, and the
      purge is stored either way; an admitted request appends its own time and
      reports the remaining quota and the reset instant. */
  lemma StepSpec(calls: int, period: int, clients: map<string, seq<int>>, req: Request)
    requires req.path !in HealthPaths
    ensures var o := Step(calls, period, clients, req);
            var key := ClientKey(req.host);
            var window := Recent(WindowOf(clients, key), req.now, period);
            && o.clients.Keys == clients.Keys + {key}
            && (forall k :: k in clients && k != key ==> o.clients[k] == clients[k])
            && (o.response.TooManyRequests? <==> |window| >= calls)
            && (o.response.TooManyRequests? ==>
                  o.clients[key] == window && o.response == TooManyRequests(calls, period))
            && (o.response.Admitted? ==>
                  && o.clients[key] == window + [req.now]
                  && o.response.limit == calls
                  && o.response.remaining == calls - |o.clients[key]|
                  && 0 <= o.response.remaining < calls
                  && o.response.reset == req.now + period)
            && !o.response.PassedThrough?
  {
  }

  function Max(a: int, b: int): int {
    if a < b then b else a
  }

  // ---------------------------------------------------------------------------
  // The middleware object

  class RateLimiter {
    const calls: int
    const period: int
    var clients: map<string, seq<int>>

    ghost predicate Valid()
      reads this
    {
      WithinCapacity(clients, calls)
    }

    constructor (calls: int := DefaultCalls, period: int := DefaultPeriod)
      ensures this.calls == calls && this.period == period
      ensures clients == map[] && Valid()
    {
      this.calls := calls;
      this.period := period;
      clients := map[];
    }

    method Dispatch(req: Request) returns (response: Response)
      requires Valid()
      modifies this
      ensures Valid()
      ensures clients == Step(calls, period, old(clients), req).clients
      ensures response == Step(calls, period, old(clients), req).response
    {
      if req.path == "/health" || req.path == "/api/v1/health" {
        return PassedThrough;
      }
      var key := ClientKey(req.host);
      var window := PurgeWindow(WindowOf(clients, key), req.now, period);
      clients := clients[key := window];
      if |clients[key]| >= calls {
        return TooManyRequests(calls, period);
      }
      clients := clients[key := clients[key] + [req.now]];
      var remaining := Max(0, calls - |clients[key]|);
      response := Admitted(calls, remaining, req.now + period);
    }
  }

  // ---------------------------------------------------------------------------
  // Sequences of requests

  /** The window map after serving `reqs` in order. */
  function Run(calls: int, period: int, clients: map<string, seq<int>>, reqs: seq<Request>): map<string, seq<int>>
    decreases |reqs|
  {
    if reqs == [] then clients else Run(calls, period, Step(calls, period, clients, reqs[0]).clients, reqs[1..])
  }

  /** The responses to `reqs`, in order. */
  function Responses(calls: int, period: int, clients: map<string, seq<int>>, reqs: seq<Request>): seq<Response>
    decreases |reqs|
  {
    if reqs == [] then []
    else
      var o := Step(calls, period, clients, reqs[0]);
      [o.response] + Responses(calls, period, o.clients, reqs[1..])
  }

  /** The arrival times of the requests from client `key` that were admitted. */
  function AdmittedTimes(calls: int, period: int, clients: map<string, seq<int>>, reqs: seq<Request>, key: string): seq<int>
    decreases |reqs|
  {
    if reqs == [] then []
    else
      var o := Step(calls, period, clients, reqs[0]);
      (if o.response.Admitted? && ClientKey(reqs[0].host) == key then [reqs[0].now] else [])
      + AdmittedTimes(calls, period, o.clients, reqs[1..], key)
  }

  /** Starting from an empty map, no client's window ever exceeds `calls` entries. */
  lemma RunWithinCapacity(calls: int, period: int, reqs: seq<Request>)
    ensures WithinCapacity(Run(calls, period, map[], reqs), calls)
  {
    RunKeepsCapacity(calls, period, map[], reqs);
  }

  lemma {:induction false} RunKeepsCapacity(calls: int, period: int, clients: map<string, seq<int>>, reqs: seq<Request>)
    requires WithinCapacity(clients, calls)
    ensures WithinCapacity(Run(calls, period, clients, reqs), calls)
    decreases |reqs|
  {
    if reqs != [] {
      RunKeepsCapacity(calls, period, Step(calls, period, clients, reqs[0]).clients, reqs[1..]);
    }
  }

  /** Request times never go backwards. */
  predicate Chronological(reqs: seq<Request>) {
    forall i, j :: 0 <= i < j < |reqs| ==> reqs[i].now <= reqs[j].now
  }

  /** The sliding-window guarantee: when requests arrive in time order, at
      most `calls` requests of one client are admitted within any `period`
      seconds ending at or after the last of them. */
  lemma SlidingWindowBound(calls: int, period: int, reqs: seq<Request>, key: string, end: int)
    requires Chronological(reqs)
    requires forall i :: 0 <= i < |reqs| ==> reqs[i].now <= end
    ensures |Recent(AdmittedTimes(calls, period, map[], reqs, key), end, period)| <= Capacity(calls)
  {
    var start := if reqs == [] then end else reqs[0].now;
    WindowTracksAdmissions(calls, period, map[], [], reqs, key, start, end);
    assert [] + AdmittedTimes(calls, period, map[], reqs, key) == AdmittedTimes(calls, period, map[], reqs, key);
  }

  /** The client's stored window, purged at any instant from `since` on,
      agrees with the purged list of its admitted times. */
  ghost predicate Tracks(window: seq<int>, admitted: seq<int>, period: int, since: int) {
    forall t :: since <= t ==> Recent(window, t, period) == Recent(admitted, t, period)
  }

  lemma {:induction false} WindowTracksAdmissions(calls: int, period: int, clients: map<string, seq<int>>,
                                                  admitted: seq<int>, reqs: seq<Request>, key: string, since: int, end: int)
    requires WithinCapacity(clients, calls)
    requires Tracks(WindowOf(clients, key), admitted, period, since)
    requires Chronological(reqs)
    requires forall i :: 0 <= i < |reqs| ==> since <= reqs[i].now <= end
    requires since <= end
    ensures |Recent(admitted + AdmittedTimes(calls, period, clients, reqs, key), end, period)| <= Capacity(calls)
    decreases |reqs|
  {
    if reqs == [] {
      assert admitted + AdmittedTimes(calls, period, clients, reqs, key) == admitted;
      TrackedWithinCapacity(calls, period, clients, admitted, key, since, end);
    } else {
      var o := Step(calls, period, clients, reqs[0]);
      var added := if o.response.Admitted? && ClientKey(reqs[0].host) == key then [reqs[0].now] else [];
      StepTracks(calls, period, clients, admitted, reqs[0], key, since);
      ChronologicalTail(reqs, end);
      AdmittedTimesShift(calls, period, clients, admitted, reqs, key);
      WindowTracksAdmissions(calls, period, o.clients, admitted + added, reqs[1..], key, reqs[0].now, end);
    }
  }

  /** Moving the first request's admission, if any, onto the admitted list. */
  lemma AdmittedTimesShift(calls: int, period: int, clients: map<string, seq<int>>,
                           admitted: seq<int>, reqs: seq<Request>, key: string)
    requires reqs != []
    ensures var o := Step(calls, period, clients, reqs[0]);
            admitted + AdmittedTimes(calls, period, clients, reqs, key)
              == (admitted + (if o.response.Admitted? && ClientKey(reqs[0].host) == key then [reqs[0].now] else []))
                 + AdmittedTimes(calls, period, o.clients, reqs[1..], key)
  {
    var o := Step(calls, period, clients, reqs[0]);
    var added := if o.response.Admitted? && ClientKey(reqs[0].host) == key then [reqs[0].now] else [];
    var later := AdmittedTimes(calls, period, o.clients, reqs[1..], key);
    AdmittedTimesCons(calls, period, clients, reqs, key);
    ConcatAssoc(admitted, added, later);
  }

  lemma ConcatAssoc(a: seq<int>, b: seq<int>, c: seq<int>)
    ensures a + (b + c) == (a + b) + c
  {
  }

  /** The requests after the first of a time-ordered list are in time order
      and no earlier than the first. */
  lemma ChronologicalTail(reqs: seq<Request>, end: int)
    requires reqs != [] && Chronological(reqs)
    requires forall i :: 0 <= i < |reqs| ==> reqs[i].now <= end
    ensures Chronological(reqs[1..])
    ensures forall i :: 0 <= i < |reqs[1..]| ==> reqs[0].now <= reqs[1..][i].now <= end
  {
    var rest := reqs[1..];
    forall i, j | 0 <= i < j < |rest| ensures rest[i].now <= rest[j].now {
      assert rest[i] == reqs[i + 1] && rest[j] == reqs[j + 1];
    }
    forall i | 0 <= i < |rest| ensures reqs[0].now <= rest[i].now <= end {
      assert rest[i] == reqs[i + 1];
    }
  }

  lemma AdmittedTimesCons(calls: int, period: int, clients: map<string, seq<int>>, reqs: seq<Request>, key: string)
    requires reqs != []
    ensures var o := Step(calls, period, clients, reqs[0]);
            AdmittedTimes(calls, period, clients, reqs, key)
              == (if o.response.Admitted? && ClientKey(reqs[0].host) == key then [reqs[0].now] else [])
                 + AdmittedTimes(calls, period, o.clients, reqs[1..], key)
  {
  }

  /** A window that tracks the admitted times and is within capacity bounds them. */
  lemma TrackedWithinCapacity(calls: int, period: int, clients: map<string, seq<int>>,
                              admitted: seq<int>, key: string, since: int, end: int)
    requires WithinCapacity(clients, calls)
    requires Tracks(WindowOf(clients, key), admitted, period, since)
    requires since <= end
    ensures |Recent(admitted, end, period)| <= Capacity(calls)
  {
    assert Recent(WindowOf(clients, key), end, period) == Recent(admitted, end, period);
  }

  /** One request keeps the stored window in step with the admitted times. */
  lemma StepTracks(calls: int, period: int, clients: map<string, seq<int>>, admitted: seq<int>,
                   req: Request, key: string, since: int)
    requires Tracks(WindowOf(clients, key), admitted, period, since)
    requires since <= req.now
    ensures var o := Step(calls, period, clients, req);
            Tracks(WindowOf(o.clients, key),
                   admitted + (if o.response.Admitted? && ClientKey(req.host) == key then [req.now] else []),
                   period, req.now)
  {
    var o := Step(calls, period, clients, req);
    var before := WindowOf(clients, key);
    if req.path !in HealthPaths && ClientKey(req.host) == key {
      StepSpec(calls, period, clients, req);
      var window := Recent(before, req.now, period);
      assert window == Recent(admitted, req.now, period);
      forall t | req.now <= t
        ensures Recent(WindowOf(o.clients, key), t, period)
             == Recent(admitted + (if o.response.Admitted? then [req.now] else []), t, period)
      {
        RecentTwice(before, req.now, t, period);
        RecentTwice(admitted, req.now, t, period);
        if o.response.Admitted? {
          RecentAppend(window, [req.now], t, period);
          RecentAppend(admitted, [req.now], t, period);
        } else {
          assert admitted + [] == admitted;
        }
      }
    } else {
      if req.path !in HealthPaths {
        StepSpec(calls, period, clients, req);
      }
      assert admitted + [] == admitted;
      assert WindowOf(o.clients, key) == before;
    }
  }

  const ScenarioPath: string := "/api/v1/items"
  const ScenarioHost: string := "10.0.0.1"

  function ScenarioRequest(now: int): Request {
    Request(ScenarioPath, Some(ScenarioHost), now)
  }

  lemma ScenarioGoverned(now: int)
    ensures ScenarioRequest(now).path !in HealthPaths
    ensures ClientKey(ScenarioRequest(now).host) == ScenarioHost
  {
    assert |ScenarioPath| == 13 && |HealthPaths[0]| == 7 && |HealthPaths[1]| == 14;
  }

  lemma ScenarioFirst(t0: int)
    ensures Step(3, 60, map[], ScenarioRequest(t0)) == Outcome(map[ScenarioHost := [t0]], Admitted(3, 2, t0 + 60))
  {
    ScenarioGoverned(t0);
    assert Recent([], t0, 60) == [] && [] + [t0] == [t0];
  }

  lemma ScenarioSecond(t0: int)
    ensures Step(3, 60, map[ScenarioHost := [t0]], ScenarioRequest(t0 + 1))
         == Outcome(map[ScenarioHost := [t0, t0 + 1]], Admitted(3, 1, t0 + 61))
  {
    ScenarioGoverned(t0 + 1);
    assert Recent([t0], t0 + 1, 60) == [t0] && [t0] + [t0 + 1] == [t0, t0 + 1];
  }

  lemma ScenarioThird(t0: int)
    ensures Step(3, 60, map[ScenarioHost := [t0, t0 + 1]], ScenarioRequest(t0 + 2))
         == Outcome(map[ScenarioHost := [t0, t0 + 1, t0 + 2]], Admitted(3, 0, t0 + 62))
  {
    ScenarioGoverned(t0 + 2);
    assert Recent([t0, t0 + 1], t0 + 2, 60) == [t0, t0 + 1] by {
      assert [t0, t0 + 1][1..] == [t0 + 1];
    }
    assert [t0, t0 + 1] + [t0 + 2] == [t0, t0 + 1, t0 + 2];
  }

  lemma ScenarioFourth(t0: int)
    ensures Step(3, 60, map[ScenarioHost := [t0, t0 + 1, t0 + 2]], ScenarioRequest(t0 + 30))
         == Outcome(map[ScenarioHost := [t0, t0 + 1, t0 + 2]], TooManyRequests(3, 60))
  {
    ScenarioGoverned(t0 + 30);
    assert Recent([t0, t0 + 1, t0 + 2], t0 + 30, 60) == [t0, t0 + 1, t0 + 2] by {
      assert [t0, t0 + 1, t0 + 2][1..] == [t0 + 1, t0 + 2] && [t0 + 1, t0 + 2][1..] == [t0 + 2];
      assert Recent([t0 + 2], t0 + 30, 60) == [t0 + 2];
      assert Recent([t0 + 1, t0 + 2], t0 + 30, 60) == [t0 + 1, t0 + 2];
    }
  }

  lemma ScenarioFifth(t0: int)
    ensures Step(3, 60, map[ScenarioHost := [t0, t0 + 1, t0 + 2]], ScenarioRequest(t0 + 60)).response
         == Admitted(3, 0, t0 + 120)
  {
    ScenarioGoverned(t0 + 60);
    assert Recent([t0, t0 + 1, t0 + 2], t0 + 60, 60) == [t0 + 1, t0 + 2] by {
      assert [t0, t0 + 1, t0 + 2][1..] == [t0 + 1, t0 + 2] && [t0 + 1, t0 + 2][1..] == [t0 + 2];
      assert Recent([t0 + 2], t0 + 60, 60) == [t0 + 2];
      assert Recent([t0 + 1, t0 + 2], t0 + 60, 60) == [t0 + 1, t0 + 2];
    }
  }

  /** Capacity 3, window 60 s, one client starting at any instant `t0`: three
      requests are admitted, a fourth within the minute is rejected, and 60 s
      after the first the first has left the window, so a request is admitted
      again. */
  lemma ThreePerMinute(t0: int)
    ensures Responses(3, 60, map[], [ScenarioRequest(t0), ScenarioRequest(t0 + 1), ScenarioRequest(t0 + 2),
                                     ScenarioRequest(t0 + 30), ScenarioRequest(t0 + 60)])
         == [Admitted(3, 2, t0 + 60), Admitted(3, 1, t0 + 61), Admitted(3, 0, t0 + 62),
             TooManyRequests(3, 60), Admitted(3, 0, t0 + 120)]
  {
    var reqs := [ScenarioRequest(t0), ScenarioRequest(t0 + 1), ScenarioRequest(t0 + 2),
                 ScenarioRequest(t0 + 30), ScenarioRequest(t0 + 60)];
    var m3 := map[ScenarioHost := [t0, t0 + 1, t0 + 2]];
    ScenarioFifth(t0);
    ResponsesOne(m3, ScenarioRequest(t0 + 60));
    ScenarioFourth(t0);
    ResponsesCons(m3, reqs[3..]);
    assert reqs[3..][1..] == reqs[4..] == [ScenarioRequest(t0 + 60)];
    ScenarioThird(t0);
    ResponsesCons(map[ScenarioHost := [t0, t0 + 1]], reqs[2..]);
    assert reqs[2..][1..] == reqs[3..];
    ScenarioSecond(t0);
    ResponsesCons(map[ScenarioHost := [t0]], reqs[1..]);
    assert reqs[1..][1..] == reqs[2..];
    ScenarioFirst(t0);
    ResponsesCons(map[], reqs);
  }

  lemma ResponsesCons(clients: map<string, seq<int>>, reqs: seq<Request>)
    requires reqs != []
    ensures Responses(3, 60, clients, reqs)
         == [Step(3, 60, clients, reqs[0]).response] + Responses(3, 60, Step(3, 60, clients, reqs[0]).clients, reqs[1..])
  {
  }

  lemma ResponsesOne(clients: map<string, seq<int>>, req: Request)
    ensures Responses(3, 60, clients, [req]) == [Step(3, 60, clients, req).response]
  {
    assert [req][1..] == [];
  }
}
