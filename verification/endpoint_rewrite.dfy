/**
 The endpoint rewriting inside `RunTestMicroservice` in
 test/module/microservice.go: before the endpoints are validated against the
 load balancer and against the Route53 record, every path is prefixed with a
 base URL and the rest of each endpoint is copied unchanged.

 The load-balancer DNS name, the zone name and the record's subdomain come
 from a Terraform state file; here they are parameters.
 */
module EndpointRewrite {
  import opened Optional
  import opened RestEndpoints

  /** The endpoint the rewriting loop appends for `e`. */
  function Relocate(base: string, e: Endpoint): Endpoint
  {
    Endpoint(base + e.path, e.expectedStatus, e.expectedBody, e.maxRetries, e.sleepBetweenRetries)
  }

  /** The rewriting loop: one appended endpoint per original, in order. */
  function WithBase(base: string, es: seq<Endpoint>): (r: seq<Endpoint>)
    ensures |r| == |es|
    ensures forall j :: 0 <= j < |es| ==> r[j].path == base + es[j].path && SameCheck(r[j], es[j])
  {
    if es == [] then [] else WithBase(base, es[..|es| - 1]) + [Relocate(base, es[|es| - 1])]
  }

  /** The inverse of `WithBase`: removes `base` from the front of every path,
      or is `None` when some path does not start with it. */
  function StripBase(base: string, es: seq<Endpoint>): Option<seq<Endpoint>>
  {
    if es == [] then Some([])
    else
      var e := es[|es| - 1];
      match StripBase(base, es[..|es| - 1])
      case None => None
      case Some(init) =>
        if base <= e.path then Some(init + [e.(path := e.path[|base|..])]) else None
  }

  lemma {:induction false} StripWithBase(base: string, es: seq<Endpoint>)
    ensures StripBase(base, WithBase(base, es)) == Some(es)
  {
    if es != [] {
      var r := WithBase(base, es);
      assert r[..|r| - 1] == WithBase(base, es[..|es| - 1]);
      StripWithBase(base, es[..|es| - 1]);
      var e := es[|es| - 1];
      assert (base + e.path)[|base|..] == e.path;
      assert es[..|es| - 1] + [e] == es;
    }
  }

  lemma {:induction false} WithBaseStrip(base: string, es: seq<Endpoint>, r: seq<Endpoint>)
    requires StripBase(base, r) == Some(es)
    ensures WithBase(base, es) == r
    decreases |r|
  {
    if r == [] {
    } else {
      var init :| StripBase(base, r[..|r| - 1]) == Some(init);
      WithBaseStrip(base, init, r[..|r| - 1]);
      var e := r[|r| - 1];
      assert base + e.path[|base|..] == e.path;
      assert es == init + [e.(path := e.path[|base|..])];
      assert es[..|es| - 1] == init;
      assert r[..|r| - 1] + [e] == r;
    }
  }

  /** The endpoints probed through the load balancer: `"http://"` and its DNS
      name in front of every path. */
  function LoadBalancerEndpoints(lbDnsName: string, es: seq<Endpoint>): (r: seq<Endpoint>)
    ensures |r| == |es|
    ensures forall j :: 0 <= j < |es| ==>
      r[j].path == "http://" + lbDnsName + es[j].path && SameCheck(r[j], es[j])
  {
    WithBase("http://" + lbDnsName, es)
  }

  /** The endpoints probed through the Route53 record: the record's subdomain,
      a dot and the zone name in front of every path (no scheme is added). */
  function Route53Endpoints(subdomain: string, zone: string, es: seq<Endpoint>): (r: seq<Endpoint>)
    ensures |r| == |es|
    ensures forall j :: 0 <= j < |es| ==>
      r[j].path == subdomain + "." + zone + es[j].path && SameCheck(r[j], es[j])
  {
    WithBase(subdomain + "." + zone, es)
  }

  /** Validating the rewritten endpoints is validating the originals against
      a server that sees every URL with `base` in front. */
  lemma RewriteThenValidate(base: string, es: seq<Endpoint>, get: Oracle)
    ensures Validate(WithBase(base, es), get) == Validate(es, (url: string, i: nat) => get(base + url, i))
  {
    var r := WithBase(base, es);
    var get' := (url: string, i: nat) => get(base + url, i);
    forall j | 0 <= j < |es|
      ensures Indistinguishable(r[j], get, es[j], get')
    {
    }
    ValidateReadsOnlyResponses(r, get, es, get');
  }
}
