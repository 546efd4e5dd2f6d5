# Endpoint validation and matching helpers of the terraform-modules test harness

This project models, in Dafny, the two pieces of self-contained logic in the
Go test harness of the terraform-modules repository. The rest of the harness
drives Terraform, the AWS SDK and CLI, and terratest.

- **The retrying REST endpoint validator** (`TestRestEndpoints` in
  `test/module/microservice.go`). It sleeps once to let the deployment warm
  up. It then walks the `EndpointTest` records in order. For each one it makes
  up to `MaxRetries + 1` HTTP GETs and sleeps between attempts. An attempt
  succeeds when the status is equal and, if an expected body is given, the
  body is equal too. A success `return`s from the whole function. A failed
  last attempt calls `t.Fatalf`.
  - The HTTP GET is an oracle: a function from a URL and an attempt number to
    a `(status, body)` response.
  - Sleeps and GETs are recorded as events in a trace.
  - `t.Fatalf` is the `Failed` outcome.
  - The model has two forms. One is a functional form (`ProbeFrom`, `Loop`,
    `Validate`). The other is a method shaped like the Go code, with its two
    nested loops (`TestRestEndpoints`). The method is proved equal to the
    functional form.
- **Endpoint rewriting** in `RunTestMicroservice`. Before each validation
  stage, every path is prefixed with `"http://" + lb_dns_name` (load balancer)
  or with `subdomain + "." + zone` (Route53). All other fields are copied.
- **`RandomID(n)`**: `n` letters, each picked from `a`..`z` by an index in
  range. The index is an arbitrary choice.
- **`Finds`, `Find` and `Equal`** in `test/util/cmp.go`. `regexp.MatchString`
  is abstract. A pattern that does not compile matches nothing, because
  the helpers discard the error.

Modules: `Optional` (optional.dfy), `RestEndpoints` (rest_endpoints.dfy),
`EndpointRewrite` (endpoint_rewrite.dfy), `RandomId` (random_id.dfy), and
`Cmp` (cmp.dfy).

Two consequences of the code that the model keeps:
- A success `return`s from the whole of `TestRestEndpoints`. So only the first
  endpoint with a non-negative `MaxRetries` is ever probed (`OthersUntouched`).
- A negative `MaxRetries` is accepted. That endpoint gets no attempt and no
  failure, and the loop moves on (`AllSkipped`, `Loop`).

## Model

| member | source | states |
|---|---|---|
| RestEndpoints.AcceptsMeaning | test/module/microservice.go:135-151 | An attempt succeeds iff the status is equal and either no body is expected or the body is equal. With a nil expected body any body is accepted. |
| RestEndpoints.ProbeFrom | test/module/microservice.go:139-160 | The retry loop of one endpoint. With a negative budget it makes no GET. Otherwise it either returns at the first accepted attempt, after rejecting all earlier ones, or fails after rejecting every attempt up to `MaxRetries`. The trace holds each attempt's GET, with one sleep between consecutive attempts. |
| RestEndpoints.Loop | test/module/microservice.go:133-161 | The loop over endpoints ends normally iff every budget is negative. A return or a failure happens at the first endpoint with a non-negative budget, and the trace holds only that endpoint's attempts. |
| RestEndpoints.Validate | test/module/microservice.go:127-162 | The warm-up sleep comes first. The call finishes without return or failure iff every budget is negative, and then the warm-up is the only event. |
| RestEndpoints.TestRestEndpoints | test/module/microservice.go:127-162 | The nested-loop form with early `return` and `t.Fatalf` yields exactly the outcome and trace of the functional model. |
| RestEndpoints.LoopReturns | test/module/microservice.go:151-154 | Converse direction: the first endpoint with a non-negative budget, accepted on attempt `a` after `a` rejections, makes the validation return there with `a + 1` GETs. |
| RestEndpoints.LoopFails | test/module/microservice.go:155-157 | Converse direction: if that endpoint rejects every attempt, the validation fails there after `MaxRetries + 1` GETs. |
| RestEndpoints.CountAttempts | test/module/microservice.go:139-159 | Probing attempts `i` to `last` makes `last - i + 1` GETs and `last - i` sleeps, all for that endpoint. |
| RestEndpoints.WarmUpOnce | test/module/microservice.go:128-130 | The warm-up sleep happens exactly once, before any GET. |
| RestEndpoints.RetryBound | test/module/microservice.go:139-140 | No endpoint gets more than `MaxRetries + 1` GETs. An endpoint with a negative budget gets none. |
| RestEndpoints.ReturnedCounts | test/module/microservice.go:139-159 | A success on attempt `k` comes after exactly `k` sleeps and `k + 1` GETs on that endpoint, so a first-attempt match sleeps zero times. |
| RestEndpoints.FailedCounts | test/module/microservice.go:155-159 | A failing endpoint gets exactly `MaxRetries + 1` GETs and `MaxRetries` sleeps. The last GET is the final event, so nothing follows the failure. |
| RestEndpoints.OthersUntouched | test/module/microservice.go:151-157 | Every endpoint other than the one the run ended on gets no GET and no sleep. This includes every endpoint after the first success. |
| RestEndpoints.AllSkipped | test/module/microservice.go:128-139 | With an empty list or only negative budgets, the run makes no GET and no failure, and the warm-up is its only event. |
| RestEndpoints.ScenarioRecoversAfterTwoRetries | test/module/microservice.go:139-159 | Example: with statuses 503, 503 and then 200, no expected body and three retries, the run succeeds on the third attempt after two sleeps. |
| RestEndpoints.ScenarioBodyMismatchFails | test/module/microservice.go:145-157 | Example: expected body "ok", response 200 with "fail", and no retries. The run fails after the single GET. |
| RestEndpoints.ValidateReadsOnlyResponses | test/module/microservice.go:133-151 | The path matters only through the GET. Endpoint lists that differ only in paths, with GETs observing the same responses, run identically. |
| EndpointRewrite.WithBase | test/module/microservice.go:194-203 | The rewriting loop keeps the length and order. Each path becomes `base + path`. Status, body, retries and sleep are copied. |
| EndpointRewrite.StripWithBase | test/module/microservice.go:194-203 | Round trip: removing the base again recovers the original endpoints. |
| EndpointRewrite.WithBaseStrip | test/module/microservice.go:194-203 | Round trip the other way: any list whose paths all start with the base is the rewriting of the list with the base removed. |
| EndpointRewrite.LoadBalancerEndpoints | test/module/microservice.go:189-203 | Load-balancer endpoints: each path is `"http://" + lb_dns_name + path`, and the other fields are unchanged. |
| EndpointRewrite.Route53Endpoints | test/module/microservice.go:215-230 | Route53 endpoints: each path is `subdomain + "." + zone + path`, and the other fields are unchanged. |
| EndpointRewrite.RewriteThenValidate | test/module/microservice.go:194-206 | Validating the rewritten endpoints equals validating the originals against a server that sees every URL with the base in front. |
| RandomId.LetterRunesInOrder | test/module/microservice.go:117 | The alphabet's `j`-th rune is the `j`-th letter after `a`. |
| RandomId.Letters | test/module/microservice.go:119-124 | The identifier built from `n` in-range indices has length `n` and only letters `a`..`z`. |
| RandomId.LettersOfPicks | test/module/microservice.go:119-124 | Every lower-case string is the identifier of some choice of indices, so every such identifier can be produced. |
| RandomId.PicksOfLetters | test/module/microservice.go:119-124 | Distinct index choices give distinct identifiers. |
| RandomId.RandomID | test/module/microservice.go:119-125 | For `n >= 0` the result has length `n` and every character in `a`..`z`, built from the drawn indices. A negative `n` panics in `make` (`None`). |
| Cmp.CompileErrorIsNoMatch | test/util/cmp.go:20 | A needle that does not compile matches nothing, because the error is discarded. |
| Cmp.FirstMatch | test/util/cmp.go:18-25 | The needle scan stops at the first matching needle, and no earlier needle matches. If it finds none, no needle matches. |
| Cmp.Found | test/util/cmp.go:18-25 | `found` is true iff some needle matches the source. |
| Cmp.FindsFrom | test/util/cmp.go:17-30 | The outer loop passes iff every remaining source is matched. Otherwise it fails at the first unmatched source, and all earlier sources were matched. |
| Cmp.Finds | test/util/cmp.go:16-31 | Passes iff every source is matched by some needle. Otherwise it fails at the first source in order that no needle matches. |
| Cmp.Find | test/util/cmp.go:33-39 | `Find` calls `t.Fatalf` iff the needle does not match the source. |
| Cmp.FindIsFinds | test/util/cmp.go:33-39 | `Find(needle, source)` equals `Finds([needle], [source])`, so it fails iff the needle does not match. |
| Cmp.FindsNoSources | test/util/cmp.go:17 | With no sources, `Finds` passes whatever the needles. |
| Cmp.FindsNoNeedles | test/util/cmp.go:17-29 | With no needles and at least one source, `Finds` fails at the first source. |
| Cmp.NeedleOrderIrrelevant | test/util/cmp.go:19-25 | Reordering the needles (same multiset) does not change the verdict. |
| Cmp.MoreNeedlesStillPass | test/util/cmp.go:16-31 | Adding needles never turns a pass into a failure. |
| Cmp.Equal | test/util/cmp.go:10-14 | A difference is reported iff the two values differ. A string never equals an int. |

## Left out

- Terraform init/apply/destroy, terratest stages, `TestEcs`, and the AWS SDK and CLI calls: these are calls into external systems.
- The order of the two validation stages in `RunTestMicroservice` (load balancer first, then Route53) and the skipping of stages by environment: this is stage orchestration, not logic of the model.
- Reading the Terraform state file (`microserviceExtractElb`, `microserviceExtractRoute53`): this is file I/O and unchecked type assertions. The DNS name, zone and subdomain are parameters instead. In the source, the zone and the subdomain are looked up in the load-balancer output object, not the Route53 one (test/module/microservice.go:215-216), and the Route53 base has no scheme. The model takes both parts as given.
- The internals of terratest's `HttpGetWithOptions`, including what it does on a transport error: they live in the terratest library. The oracle always yields a `(status, body)` pair. So the model neither confirms nor denies that a transport error counts as an ordinary mismatch.
- Durations: `SleepBetweenRetries` and the 30-second warm-up are counted as sleep events, not as time. The request timeout of 10 is also left out.
- Logging output: it has no effect on the outcome.
- Go's fixed-width `int`: the retry counter cannot overflow, because the loop stops by the time `i == MaxRetries`. So unbounded integers change nothing.
- Regular-expression semantics, and the distribution and seeding of `rand.Intn`: regex matching is an abstract predicate, and the random index is an arbitrary in-range choice.
- modules/services/helper/microservice.go: its `TestRestEndpoints` delegates entirely to terratest's `HttpGetWithRetry`. Its `RandomID` duplicates the one modelled here.
- The scraper configuration and deployment tests: they only assemble configuration maps and orchestrate deployments.
- Cmp.Equal: the `cmp.Diff` text of the report is not modelled, only whether a report is made.
