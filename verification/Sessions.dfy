/** Sequential sessions of service calls, with a working cache and no other writer. */
module Sessions {
  import opened Domain
  import opened Table
  import opened Lifecycle
  import opened Persistence
  import opened Service

  datatype Request =
    | DoCreate(tenant: Id, delegator: Id, create: CreateInput, answers: Answers)
    | DoCancel(tenant: Id, id: Id, version: int)
    | DoExtend(tenant: Id, id: Id, days: Option<int>, version: int)
    | DoReassign(tenant: Id, id: Id, version: int, reassign: ReassignInput, answers: Answers)
    | DoList(tenant: Id, delegator: Id)
    | DoSetPolicy(tenant: Id, policy: Policy)

  datatype Response =
    | Delegation(delegation: Result<Row>)
    | Listing(listing: Result<seq<Row>>)
    | PolicySet(policy: Result<Policy>)

  /** A List answers with a listing of the table it was asked about, or with an error. */
  ghost predicate ListsTruly(req: Request, before: State, resp: Response) {
    req.DoList? ==> resp.Listing? && (resp.listing.Ok? ==> IsListing(before.rows, req.tenant, req.delegator, resp.listing.value))
  }

  /** The full answer of a request when everything is up: from the state before it to the
      state after it. */
  ghost predicate Served(req: Request, before: State, after: State, resp: Response) {
    var policy := PolicyOf(before.policies, req.tenant);
    && (!req.DoSetPolicy? ==> after.policies == before.policies)
    && match req
       case DoCreate(tenant, delegator, create, a) =>
         resp.Delegation? && Created(before.rows, policy, tenant, delegator, create, a, resp.delegation, after.rows)
       case DoCancel(tenant, id, version) =>
         resp.Delegation? && Ends(before.rows, tenant, id, version, resp.delegation, after.rows)
       case DoExtend(tenant, id, days, version) =>
         resp.Delegation? && Extends(before.rows, policy, tenant, id, days, version, resp.delegation, after.rows)
       case DoReassign(tenant, id, version, reassign, a) =>
         resp.Delegation? && Reassigns(before.rows, policy, tenant, id, version, reassign, a, resp.delegation, after.rows)
       case DoList(_, _) => resp.Listing? && resp.listing.Ok? && after.rows == before.rows
       case DoSetPolicy(tenant, wanted) =>
         && resp.PolicySet? && after.rows == before.rows && (resp.policy.Ok? <==> ValidPolicy(wanted))
         && after.policies == if resp.policy.Ok? then before.policies[tenant := wanted] else before.policies
  }

  method Serve(w: World, req: Request) returns (resp: Response)
    requires w.Valid() && w.alone && w.CacheOk()
    modifies w, w.db
    ensures w.Valid() && w.CacheOk() && old(w.log) <= w.log
    ensures ListsTruly(req, old(w.State()), resp)
    ensures w.db.healthy ==> Served(req, old(w.State()), w.State(), resp)
  {
    match req {
      case DoCreate(tenant, delegator, create, a) =>
        var r := w.Create(tenant, delegator, create, a, None);
        resp := Delegation(r);
      case DoCancel(tenant, id, version) =>
        var r := w.Cancel(tenant, id, version);
        resp := Delegation(r);
      case DoExtend(tenant, id, days, version) =>
        var r, _ := w.Extend(tenant, id, days, version);
        resp := Delegation(r);
      case DoReassign(tenant, id, version, reassign, a) =>
        var r, _ := w.Reassign(tenant, id, version, reassign, a);
        resp := Delegation(r);
      case DoList(tenant, delegator) =>
        var r := w.List(tenant, delegator);
        resp := Listing(r);
      case DoSetPolicy(tenant, wanted) =>
        var r := w.SetTenantPolicy(tenant, wanted.maxDurationDays, wanted.reviewWindowDays);
        resp := PolicySet(r);
    }
  }

  /** Request `i` was served between the moments `i` and `i + 1` of the log. */
  ghost predicate ServedAt(
    log: seq<Mark>, healthy: bool, requests: seq<Request>, responses: seq<Response>, moments: seq<nat>, i: nat)
    requires i < |responses| <= |requests| && |moments| == |responses| + 1
  {
    && moments[i] <= moments[i + 1] <= |log|
    && ListsTruly(requests[i], Before(log, moments[i]), responses[i])
    && (healthy ==> Served(requests[i], Before(log, moments[i]), Before(log, moments[i + 1]), responses[i]))
  }

  ghost predicate AllServed(
    log: seq<Mark>, healthy: bool, requests: seq<Request>, responses: seq<Response>, moments: seq<nat>)
    requires |responses| <= |requests| && |moments| == |responses| + 1
  {
    forall i :: 0 <= i < |responses| ==> ServedAt(log, healthy, requests, responses, moments, i)
  }

  lemma {:induction false} OneMoreServed(
      before: seq<Mark>, log: seq<Mark>, healthy: bool, requests: seq<Request>, responses: seq<Response>,
      moments: seq<nat>, resp: Response)
    requires |responses| < |requests| && |moments| == |responses| + 1 && before <= log
    requires AllServed(before, healthy, requests, responses, moments) && moments[|responses|] == |before|
    requires ListsTruly(requests[|responses|], Before(before, |before|), resp)
    requires healthy ==> Served(requests[|responses|], Before(before, |before|), Before(log, |log|), resp)
    ensures AllServed(log, healthy, requests, responses + [resp], moments + [|log|])
  {
    forall i | 0 <= i < |responses| + 1
      ensures ServedAt(log, healthy, requests, responses + [resp], moments + [|log|], i)
    {
      if i < |responses| {
        assert ServedAt(before, healthy, requests, responses, moments, i);
        assert Before(log, moments[i]) == Before(before, moments[i]);
        assert Before(log, moments[i + 1]) == Before(before, moments[i + 1]);
      } else {
        assert Before(log, |before|) == Before(before, |before|);
      }
    }
  }

  /** In any sequential session every request gets one response. A List answers exactly what
      ListByDelegator would at that moment of the run; with everything up, each request does
      and answers exactly what its specification says of the state it met. */
  method Session(w: World, requests: seq<Request>) returns (responses: seq<Response>, ghost moments: seq<nat>)
    requires w.Valid() && w.alone && w.CacheOk()
    modifies w, w.db
    ensures w.Valid() && w.CacheOk() && old(w.log) <= w.log
    ensures |responses| == |requests| && |moments| == |requests| + 1
    ensures moments[0] == |old(w.log)| && moments[|requests|] == |w.log|
    ensures AllServed(w.log, w.db.healthy, requests, responses, moments)
  {
    responses, moments := [], [|w.log|];
    while |responses| < |requests|
      invariant w.Valid() && w.CacheOk() && old(w.log) <= w.log
      invariant |responses| <= |requests| && |moments| == |responses| + 1
      invariant moments[0] == |old(w.log)| && moments[|responses|] == |w.log|
      invariant AllServed(w.log, w.db.healthy, requests, responses, moments)
    {
      ghost var before := w.log;
      var resp := Serve(w, requests[|responses|]);
      OneMoreServed(before, w.log, w.db.healthy, requests, responses, moments, resp);
      responses, moments := responses + [resp], moments + [|w.log|];
    }
  }
}
