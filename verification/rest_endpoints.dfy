/**
 The retrying REST endpoint validator of test/module/microservice.go
 (`TestRestEndpoints`).

 The validator sleeps once to let freshly deployed infrastructure come up,
 then walks the endpoints in order and, for each one, issues up to
 `MaxRetries + 1` HTTP GETs, sleeping between attempts. The HTTP GET is an
 oracle: the response it returns for a URL on a given attempt. Sleeps are
 recorded as events in a trace, not as durations; `t.Fatalf` is the
 `Failed` outcome.

 The source's `return` on a successful attempt leaves the whole function,
 not only the retry loop, so the endpoints after the first successful one
 are never probed; the model keeps that behaviour.
 */
module RestEndpoints {
  import opened Optional

  /** An `EndpointTest` record. `expectedBody` is `None` for a nil pointer.
      `sleepBetweenRetries` is a `time.Duration` (nanoseconds); the model
      only counts sleeps, so it never reads it. */
  datatype Endpoint = Endpoint(
    path: string,
    expectedStatus: int,
    expectedBody: Option<string>,
    maxRetries: int,
    sleepBetweenRetries: int)

  /** What one HTTP GET observed: the status code and the body. */
  datatype Response = Response(status: int, body: string)

  /** The HTTP GET as an oracle: the response a GET to `url` receives on
      the `attempt`-th try (0-based) against that endpoint. */
  type Oracle = (string, nat) -> Response

  /** The observable steps of a validation run: the warm-up sleep, a GET
      made for the endpoint at index `endpoint` on a given attempt, and a
      sleep between two attempts on that endpoint. */
  datatype Event = WarmUp | Get(endpoint: nat, attempt: nat) | Sleep(endpoint: nat)

  /** How a loop ends: `Returned` is the `return` after a successful attempt,
      `Failed` is `t.Fatalf` after the last attempt, `Completed` is the loop
      running to its end. */
  datatype Outcome = Returned(endpoint: nat, attempt: nat) | Completed | Failed(endpoint: nat)

  datatype Run = Run(outcome: Outcome, trace: seq<Event>)

  /** The success test of one attempt, as written: the status must be equal,
      and the body is compared only when an expected body is given (the
      expected body defaults to the empty string but is then never read). */
  predicate Accepts(e: Endpoint, r: Response)
  {
    var expectedBody := if e.expectedBody.Some? then e.expectedBody.value else "";
    r.status == e.expectedStatus
    && (e.expectedBody.None? || (e.expectedBody.Some? && r.body == expectedBody))
  }

  /** `n` unsuccessful attempts on endpoint `k`, numbered `i` to `i + n - 1`,
      each followed by a sleep. */
  function Retries(k: nat, i: nat, n: nat): seq<Event>
  {
    if n == 0 then [] else Retries(k, i, n - 1) + [Get(k, i + n - 1), Sleep(k)]
  }

  /** The events of an endpoint probed from attempt `i` up to and including
      attempt `last`, where probing stops. */
  function Attempts(k: nat, i: nat, last: nat): seq<Event>
    requires i <= last
  {
    Retries(k, i, last - i) + [Get(k, last)]
  }

  lemma {:induction false} RetriesCons(k: nat, i: nat, n: nat)
    ensures [Get(k, i), Sleep(k)] + Retries(k, i + 1, n) == Retries(k, i, n + 1)
  {
    if n > 0 {
      RetriesCons(k, i, n - 1);
      assert Retries(k, i + 1, n) == Retries(k, i + 1, n - 1) + [Get(k, i + n), Sleep(k)];
    }
  }

  /** The retry loop for the endpoint at index `k`, from attempt `i` on. */
  function ProbeFrom(e: Endpoint, k: nat, get: Oracle, i: nat): (run: Run)
    decreases e.maxRetries + 1 - i
    ensures run.outcome.Completed? <==> e.maxRetries < i
    ensures run.outcome.Completed? ==> run.trace == []
    ensures run.outcome.Returned? ==>
      && run.outcome.endpoint == k
      && i <= run.outcome.attempt <= e.maxRetries
      && Accepts(e, get(e.path, run.outcome.attempt))
      && (forall j :: i <= j < run.outcome.attempt ==> !Accepts(e, get(e.path, j)))
      && run.trace == Attempts(k, i, run.outcome.attempt)
    ensures run.outcome.Failed? ==>
      && run.outcome.endpoint == k
      && i <= e.maxRetries
      && (forall j :: i <= j <= e.maxRetries ==> !Accepts(e, get(e.path, j)))
      && run.trace == Attempts(k, i, e.maxRetries)
  {
    if e.maxRetries < i then Run(Completed, [])
    else if Accepts(e, get(e.path, i)) then Run(Returned(k, i), [Get(k, i)])
    else if i == e.maxRetries then Run(Failed(k), [Get(k, i)])
    else
      var rest := ProbeFrom(e, k, get, i + 1);
      var last := if rest.outcome.Returned? then rest.outcome.attempt else e.maxRetries;
      RetriesCons(k, i, last - (i + 1));
      Run(rest.outcome, [Get(k, i), Sleep(k)] + rest.trace)
  }

  /** Endpoints `k` up to `p` (exclusive) all have a negative retry budget. */
  ghost predicate SkippedBetween(es: seq<Endpoint>, k: nat, p: nat)
    requires k <= p <= |es|
  {
    forall j :: k <= j < p ==> es[j].maxRetries < 0
  }

  /** The outer loop over the endpoints, from index `k` on. */
  function Loop(es: seq<Endpoint>, get: Oracle, k: nat): (run: Run)
    requires k <= |es|
    decreases |es| - k
    ensures run.outcome.Completed? <==> SkippedBetween(es, k, |es|)
    ensures run.outcome.Completed? ==> run.trace == []
    ensures run.outcome.Returned? ==>
      var p := run.outcome.endpoint;
      var a := run.outcome.attempt;
      && k <= p < |es|
      && SkippedBetween(es, k, p)
      && a <= es[p].maxRetries
      && Accepts(es[p], get(es[p].path, a))
      && (forall j :: 0 <= j < a ==> !Accepts(es[p], get(es[p].path, j)))
      && run.trace == Attempts(p, 0, a)
    ensures run.outcome.Failed? ==>
      var p := run.outcome.endpoint;
      && k <= p < |es|
      && SkippedBetween(es, k, p)
      && 0 <= es[p].maxRetries
      && (forall j :: 0 <= j <= es[p].maxRetries ==> !Accepts(es[p], get(es[p].path, j)))
      && run.trace == Attempts(p, 0, es[p].maxRetries)
  {
    if k == |es| then Run(Completed, [])
    else
      var probe := ProbeFrom(es[k], k, get, 0);
      match probe.outcome
      case Returned(_, _) => probe
      case Failed(_) => probe
      case Completed =>
        var rest := Loop(es, get, k + 1);
        Run(rest.outcome, probe.trace + rest.trace)
  }

  /** A whole call of `TestRestEndpoints`: the warm-up sleep, then the loop. */
  function Validate(es: seq<Endpoint>, get: Oracle): (run: Run)
    ensures |run.trace| > 0 && run.trace[0] == WarmUp
    ensures run.outcome.Completed? <==> forall j :: 0 <= j < |es| ==> es[j].maxRetries < 0
    ensures run.outcome.Completed? ==> run.trace == [WarmUp]
  {
    var loop := Loop(es, get, 0);
    Run(loop.outcome, [WarmUp] + loop.trace)
  }

  /** Converse of the contract of `Loop` for a run that returns: the first
      endpoint with a non-negative retry budget, accepted on attempt `a` after
      `a` rejected attempts, makes the whole loop return there. */
  lemma LoopReturns(es: seq<Endpoint>, get: Oracle, p: nat, a: nat)
    requires p < |es| && SkippedBetween(es, 0, p)
    requires a <= es[p].maxRetries
    requires Accepts(es[p], get(es[p].path, a))
    requires forall j :: 0 <= j < a ==> !Accepts(es[p], get(es[p].path, j))
    ensures Loop(es, get, 0) == Run(Returned(p, a), Attempts(p, 0, a))
  {
  }

  /** Converse of the contract of `Loop` for a failing run: the first endpoint
      with a non-negative retry budget, rejected on every attempt, makes the
      loop fail there. */
  lemma LoopFails(es: seq<Endpoint>, get: Oracle, p: nat)
    requires p < |es| && SkippedBetween(es, 0, p)
    requires 0 <= es[p].maxRetries
    requires forall j :: 0 <= j <= es[p].maxRetries ==> !Accepts(es[p], get(es[p].path, j))
    ensures Loop(es, get, 0) == Run(Failed(p), Attempts(p, 0, es[p].maxRetries))
  {
  }

  /** `TestRestEndpoints` in the shape of the Go code: two nested loops, a
      `return` on success and a `t.Fatalf` (here a `return` with `Failed`) on
      the last unsuccessful attempt. */
  method TestRestEndpoints(endpoints: seq<Endpoint>, get: Oracle) returns (run: Run)
    ensures run == Validate(endpoints, get)
  {
    var trace := [WarmUp];
    var k := 0;
    while k < |endpoints|
      invariant 0 <= k <= |endpoints|
      invariant trace == [WarmUp]
      invariant SkippedBetween(endpoints, 0, k)
    {
      var endpoint := endpoints[k];
      var i := 0;
      while i <= endpoint.maxRetries
        invariant 0 <= i
        invariant i == 0 || i <= endpoint.maxRetries
        invariant trace == [WarmUp] + Retries(k, 0, i)
        invariant forall j :: 0 <= j < i ==> !Accepts(endpoint, get(endpoint.path, j))
        decreases endpoint.maxRetries + 1 - i
      {
        var response := get(endpoint.path, i);
        trace := trace + [Get(k, i)];
        if Accepts(endpoint, response) {
          LoopReturns(endpoints, get, k, i);
          return Run(Returned(k, i), trace);
        }
        if i == endpoint.maxRetries {
          LoopFails(endpoints, get, k);
          return Run(Failed(k), trace);
        }
        trace := trace + [Sleep(k)];
        i := i + 1;
      }
      k := k + 1;
    }
    run := Run(Completed, trace);
  }

  /** Both directions of the success test: the status must match, and the
      body must match only when an expected body is given. */
  lemma AcceptsMeaning(e: Endpoint, r: Response)
    ensures Accepts(e, r) <==>
      r.status == e.expectedStatus && (e.expectedBody == None || e.expectedBody == Some(r.body))
  {
  }

  /** The kinds of event the properties below count. */
  datatype Counted = GetsFor(endpoint: nat) | SleepsFor(endpoint: nat) | WarmUpSleeps

  predicate CountedAs(ev: Event, kind: Counted)
  {
    match kind
    case GetsFor(k) => ev.Get? && ev.endpoint == k
    case SleepsFor(k) => ev == Sleep(k)
    case WarmUpSleeps => ev == WarmUp
  }

  /** The number of events of the given kind in a trace. */
  function Count(t: seq<Event>, kind: Counted): nat
  {
    if t == [] then 0 else (if CountedAs(t[0], kind) then 1 else 0) + Count(t[1..], kind)
  }

  lemma {:induction false} CountConcat(a: seq<Event>, b: seq<Event>, kind: Counted)
    ensures Count(a + b, kind) == Count(a, kind) + Count(b, kind)
  {
    if a != [] {
      assert (a + b)[1..] == a[1..] + b;
      CountConcat(a[1..], b, kind);
    } else {
      assert a + b == b;
    }
  }

  lemma {:induction false} CountRetries(k: nat, i: nat, n: nat, kind: Counted)
    ensures Count(Retries(k, i, n), kind) == if kind == GetsFor(k) || kind == SleepsFor(k) then n else 0
  {
    if n > 0 {
      CountRetries(k, i, n - 1, kind);
      CountConcat(Retries(k, i, n - 1), [Get(k, i + n - 1), Sleep(k)], kind);
      CountConcat([Get(k, i + n - 1)], [Sleep(k)], kind);
    }
  }

  /** Probing attempts `i` to `last` makes `last - i + 1` GETs and
      `last - i` sleeps, all for endpoint `k`. */
  lemma CountAttempts(k: nat, i: nat, last: nat, kind: Counted)
    requires i <= last
    ensures Count(Attempts(k, i, last), kind) ==
      if kind == GetsFor(k) then last - i + 1
      else if kind == SleepsFor(k) then last - i
      else 0
  {
    CountRetries(k, i, last - i, kind);
    CountConcat(Retries(k, i, last - i), [Get(k, last)], kind);
  }

  /** Counting over a whole validation: the warm-up plus the loop's events. */
  lemma CountValidate(es: seq<Endpoint>, get: Oracle, kind: Counted)
    ensures Count(Validate(es, get).trace, kind) ==
      (if kind == WarmUpSleeps then 1 else 0) + Count(Loop(es, get, 0).trace, kind)
  {
    CountConcat([WarmUp], Loop(es, get, 0).trace, kind);
  }

  /** The warm-up sleep happens exactly once, before anything else. */
  lemma WarmUpOnce(es: seq<Endpoint>, get: Oracle)
    ensures Validate(es, get).trace[0] == WarmUp
    ensures Count(Validate(es, get).trace, WarmUpSleeps) == 1
  {
    var loop := Loop(es, get, 0);
    CountValidate(es, get, WarmUpSleeps);
    match loop.outcome
    case Completed =>
    case Returned(p, a) => CountAttempts(p, 0, a, WarmUpSleeps);
    case Failed(p) => CountAttempts(p, 0, es[p].maxRetries, WarmUpSleeps);
  }

  /** No endpoint receives more than `MaxRetries + 1` GETs, and an endpoint
      with a negative budget receives none. */
  lemma RetryBound(es: seq<Endpoint>, get: Oracle, k: nat)
    requires k < |es|
    ensures Count(Validate(es, get).trace, GetsFor(k)) <=
      if es[k].maxRetries < 0 then 0 else es[k].maxRetries + 1
  {
    var loop := Loop(es, get, 0);
    CountValidate(es, get, GetsFor(k));
    match loop.outcome
    case Completed =>
    case Returned(p, a) => CountAttempts(p, 0, a, GetsFor(k));
    case Failed(p) => CountAttempts(p, 0, es[p].maxRetries, GetsFor(k));
  }

  /** A success on attempt `a` follows exactly `a` sleeps: `a + 1` GETs and
      `a` sleeps for that endpoint, so a first-attempt match sleeps zero times. */
  lemma ReturnedCounts(es: seq<Endpoint>, get: Oracle)
    requires Validate(es, get).outcome.Returned?
    ensures
      var o := Validate(es, get).outcome;
      var t := Validate(es, get).trace;
      Count(t, GetsFor(o.endpoint)) == o.attempt + 1 && Count(t, SleepsFor(o.endpoint)) == o.attempt
  {
    var o := Loop(es, get, 0).outcome;
    CountValidate(es, get, GetsFor(o.endpoint));
    CountValidate(es, get, SleepsFor(o.endpoint));
    CountAttempts(o.endpoint, 0, o.attempt, GetsFor(o.endpoint));
    CountAttempts(o.endpoint, 0, o.attempt, SleepsFor(o.endpoint));
  }

  /** A failing endpoint has been tried exactly `MaxRetries + 1` times with
      `MaxRetries` sleeps in between, and nothing follows the failure. */
  lemma FailedCounts(es: seq<Endpoint>, get: Oracle)
    requires Validate(es, get).outcome.Failed?
    ensures
      var p := Validate(es, get).outcome.endpoint;
      var t := Validate(es, get).trace;
      && p < |es|
      && Count(t, GetsFor(p)) == es[p].maxRetries + 1
      && Count(t, SleepsFor(p)) == es[p].maxRetries
      && t[|t| - 1] == Get(p, es[p].maxRetries)
  {
    var p := Loop(es, get, 0).outcome.endpoint;
    CountValidate(es, get, GetsFor(p));
    CountValidate(es, get, SleepsFor(p));
    CountAttempts(p, 0, es[p].maxRetries, GetsFor(p));
    CountAttempts(p, 0, es[p].maxRetries, SleepsFor(p));
  }

  /** Every endpoint other than the one the run ended on gets no GET and no
      sleep: a success on one endpoint ends the whole validation, and so
      does a failure. */
  lemma OthersUntouched(es: seq<Endpoint>, get: Oracle, k: nat)
    requires k < |es|
    requires Validate(es, get).outcome.Completed? || Validate(es, get).outcome.endpoint != k
    ensures Count(Validate(es, get).trace, GetsFor(k)) == 0
    ensures Count(Validate(es, get).trace, SleepsFor(k)) == 0
  {
    var loop := Loop(es, get, 0);
    CountValidate(es, get, GetsFor(k));
    CountValidate(es, get, SleepsFor(k));
    match loop.outcome
    case Completed =>
    case Returned(p, a) =>
      CountAttempts(p, 0, a, GetsFor(k));
      CountAttempts(p, 0, a, SleepsFor(k));
    case Failed(p) =>
      CountAttempts(p, 0, es[p].maxRetries, GetsFor(k));
      CountAttempts(p, 0, es[p].maxRetries, SleepsFor(k));
  }

  /** With only negative budgets, or no endpoints at all, the validation
      makes no GET, sleeps only for the warm-up and does not fail. */
  lemma AllSkipped(es: seq<Endpoint>, get: Oracle)
    requires forall j :: 0 <= j < |es| ==> es[j].maxRetries < 0
    ensures Validate(es, get) == Run(Completed, [WarmUp])
  {
    assert SkippedBetween(es, 0, |es|);
  }

  /** Three attempts against a server answering 503 twice and then 200, with
      no expected body and a budget of three retries: success on the third
      attempt after two sleeps. */
  lemma ScenarioRecoversAfterTwoRetries()
    ensures
      var e := Endpoint("http://x", 200, None, 3, 1000000000);
      var get: Oracle := (url, i) => if i < 2 then Response(503, "") else Response(200, "up");
      Validate([e], get)
        == Run(Returned(0, 2), [WarmUp, Get(0, 0), Sleep(0), Get(0, 1), Sleep(0), Get(0, 2)])
  {
  }

  /** An expected body "ok" against a server always answering 200 with
      "fail", with no retries: failure after the single attempt. */
  lemma ScenarioBodyMismatchFails()
    ensures
      var e := Endpoint("http://x", 200, Some("ok"), 0, 0);
      var get: Oracle := (url, i) => Response(200, "fail");
      Validate([e], get) == Run(Failed(0), [WarmUp, Get(0, 0)])
  {
  }

  /** Two endpoints that differ at most in their path. */
  predicate SameCheck(a: Endpoint, b: Endpoint)
  {
    && a.expectedStatus == b.expectedStatus
    && a.expectedBody == b.expectedBody
    && a.maxRetries == b.maxRetries
    && a.sleepBetweenRetries == b.sleepBetweenRetries
  }

  /** Two endpoints that differ at most in their path and whose GETs observe
      the same responses on every attempt. */
  ghost predicate Indistinguishable(e1: Endpoint, get1: Oracle, e2: Endpoint, get2: Oracle)
  {
    SameCheck(e1, e2) && forall i :: get1(e1.path, i) == get2(e2.path, i)
  }

  lemma {:induction false} ProbeReadsOnlyResponses(e1: Endpoint, get1: Oracle, e2: Endpoint, get2: Oracle, k: nat, i: nat)
    requires Indistinguishable(e1, get1, e2, get2)
    ensures ProbeFrom(e1, k, get1, i) == ProbeFrom(e2, k, get2, i)
    decreases e1.maxRetries + 1 - i
  {
    if i <= e1.maxRetries {
      assert get1(e1.path, i) == get2(e2.path, i);
      ProbeReadsOnlyResponses(e1, get1, e2, get2, k, i + 1);
    }
  }

  lemma {:induction false} LoopReadsOnlyResponses(es1: seq<Endpoint>, get1: Oracle, es2: seq<Endpoint>, get2: Oracle, k: nat)
    requires k <= |es1| == |es2|
    requires forall j :: 0 <= j < |es1| ==> Indistinguishable(es1[j], get1, es2[j], get2)
    ensures Loop(es1, get1, k) == Loop(es2, get2, k)
    decreases |es1| - k
  {
    if k < |es1| {
      ProbeReadsOnlyResponses(es1[k], get1, es2[k], get2, k, 0);
      LoopReadsOnlyResponses(es1, get1, es2, get2, k + 1);
    }
  }

  /** The validation reads an endpoint's path only to make the GET: lists
      that differ only in their paths, with GETs observing the same responses,
      run identically. */
  lemma ValidateReadsOnlyResponses(es1: seq<Endpoint>, get1: Oracle, es2: seq<Endpoint>, get2: Oracle)
    requires |es1| == |es2|
    requires forall j :: 0 <= j < |es1| ==> Indistinguishable(es1[j], get1, es2[j], get2)
    ensures Validate(es1, get1) == Validate(es2, get2)
  {
    LoopReadsOnlyResponses(es1, get1, es2, get2, 0);
  }
}
