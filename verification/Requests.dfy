/** Accepted requests on the heap, and the preparation of a new one. */
module Requests {
  import opened Machine
  import opened Records
  import opened Hosting
  import opened Layout
  import opened Topology
  import opened Ownership
  import opened Resolution
  import opened Routing
  import opened Delivery

  /** A node of the client's request list, which links newest to oldest. */
  class Request {
    var id: u64
    var generation: u64
    var routingSlot: u64
    var transaction: array?<u8>
    var transactionLength: usize
    var targets: array?<OwnedTarget>
    var targetCount: usize
    var state: u32
    var nextSequence: u64
    var next: Request?

    /** A zeroed block. */
    constructor ()
      ensures transaction == null && targets == null && next == null
    {
      id, generation, routingSlot, transactionLength, targetCount, state, nextSequence := 0, 0, 0, 0, 0, 0, 0;
      transaction, targets, next := null, null, null;
    }

    /** The three blocks of a request, and that they are three. */
    ghost function Blocks(): set<object?>
      reads this
    {
      {this as object?, transaction as object?, targets as object?}
    }

    ghost predicate Distinct()
      reads this
    {
      && transaction != null && targets != null
      && this as object != transaction && this as object != targets && transaction as object != targets
    }

    /** The field assignments that turn prepared blocks into a request. */
    method Fill(id: u64, generation: u64, routingSlot: u64, transaction: array<u8>, targets: array<OwnedTarget>,
                next: Request?, ghost a: Accepted)
      requires transaction.Length <= SIZE_MAX && targets.Length <= SIZE_MAX
      requires this as object != transaction && this as object != targets && transaction as object != targets
      requires a == Accepted(id, generation, routingSlot, transaction[..], targets[..], STATE_ACCEPTED, 2)
      modifies this
      ensures Holds(a) && Distinct() && this.next == next
      ensures this.id == id && this.generation == generation && this.routingSlot == routingSlot
      ensures this.transaction == transaction && transactionLength == transaction.Length
      ensures this.targets == targets && targetCount == targets.Length && state == 1 && nextSequence == 2
    {
      this.id, this.generation, this.routingSlot := id, generation, routingSlot;
      this.transaction, this.transactionLength := transaction, transaction.Length;
      this.targets, this.targetCount := targets, targets.Length;
      state, nextSequence := STATE_ACCEPTED, 2;
      this.next := next;
    }

    /** The node and its two arrays hold exactly `a`. */
    ghost predicate Holds(a: Accepted)
      reads this, transaction, targets
    {
      && transaction != null && targets != null
      && id == a.id && generation == a.generation && routingSlot == a.routingSlot
      && transactionLength == transaction.Length && transaction[..] == a.transaction
      && targetCount == targets.Length && targets[..] == a.targets
      && state == a.state && nextSequence == a.nextSequence
    }
  }

  // ---------- preparing a request ----------

  /** The probe, allocation and filling of the candidate array. */
  method ResolveCandidates(host: Host, owned: OwnedTopology, slot: u64, ghost s: Snapshot)
    returns (status: Status, candidates: array?<Candidate>, count: usize)
    requires host.Valid() && owned.Valid() && owned.HasSchedule(s)
    modifies host
    ensures host.Valid() && host.samples == old(host.samples) && host.live == old(host.live) + {candidates}
    ensures FreshOrNull(candidates)
    ensures
      var r := Resolve(s, slot);
      var supply := Serve(host.oracle, old(host.allocations), Demand(|r|, CANDIDATE_SIZE));
      && host.allocations == supply.position
      && status == (if r == [] then TopologyUnavailable else if supply.granted then Ok else ResourceExhausted)
    ensures status == Ok ==> candidates != null && candidates[..] == Resolve(s, slot) && count == |Resolve(s, slot)|
  {
    candidates := null;
    status, count := ResolveSlot(true, owned, slot, null, 0, s);
    if status != ResourceExhausted {
      return;
    }
    if count == 0 {
      assert false;
    }
    status, candidates := host.AllocateArray(Demand(count, CANDIDATE_SIZE), count, ZERO_CANDIDATE);
    if status != Ok {
      return;
    }
    var resolved;
    status, resolved := ResolveSlot(true, owned, slot, candidates, count, s);
    if status != Ok || resolved != count {
      assert false;
    }
  }

  /** The probe, allocation and filling of the route array. */
  method PlanTargets(host: Host, candidates: array<Candidate>, count: usize, limit: usize)
    returns (status: Status, routes: array?<RouteTarget>, selected: usize)
    requires host.Valid() && candidates.Length == count > 0 && limit > 0
    modifies host
    ensures host.Valid() && host.samples == old(host.samples) && host.live == old(host.live) + {routes}
    ensures FreshOrNull(routes) && selected == |Plan(candidates[..], limit)| > 0
    ensures
      var supply := Serve(host.oracle, old(host.allocations), Demand(selected, ROUTE_SIZE));
      host.allocations == supply.position && status == if supply.granted then Ok else ResourceExhausted
    ensures status == Ok ==> routes != null && routes[..] == Plan(candidates[..], limit)
  {
    assert candidates[..count] == candidates[..];
    var unique;
    status, selected, unique := PlanRoutes(candidates, count, limit, null, 0);
    if status != ResourceExhausted || selected == 0 || unique < selected {
      assert false;
    }
    status, routes := host.AllocateArray(Demand(selected, ROUTE_SIZE), selected, ZERO_CANDIDATE);
    if status != Ok {
      return;
    }
    var planned, plannedUnique;
    status, planned, plannedUnique := PlanRoutes(candidates, count, limit, routes, selected);
    if status != Ok || planned != selected || plannedUnique != unique {
      assert false;
    }
  }

  // ---------- what a request owns ----------

  method ReadIdentity(owned: OwnedTopology, index: u32) returns (identity: seq<u8>)
    requires owned.Valid() && index < owned.validatorCount
    ensures identity == owned.ValidatorRecords()[index].identity
  {
    ElementInside(index, owned.validatorCount, VALIDATOR_SIZE, VALIDATOR_SIZE, owned.validators.Length);
    MappedAt(DecodeValidator, Contents(owned.validators), owned.validatorCount, VALIDATOR_SIZE, VALIDATOR_SIZE, index);
    var at := ElementOffset(index, VALIDATOR_SIZE);
    identity := DecodeValidator(owned.validators[at..at + VALIDATOR_SIZE]).identity;
  }

  method ReadEndpoint(owned: OwnedTopology, index: u32) returns (endpoint: Endpoint)
    requires owned.Valid() && index < owned.endpointCount
    ensures endpoint == owned.EndpointRecords()[index]
  {
    ElementInside(index, owned.endpointCount, ENDPOINT_SIZE, ENDPOINT_SIZE, owned.endpoints.Length);
    MappedAt(DecodeEndpoint, Contents(owned.endpoints), owned.endpointCount, ENDPOINT_SIZE, ENDPOINT_SIZE, index);
    var at := ElementOffset(index, ENDPOINT_SIZE);
    endpoint := DecodeEndpoint(owned.endpoints[at..at + ENDPOINT_SIZE]);
  }

  predicate RouteInRange(s: Snapshot, route: RouteTarget) {
    && route.leaderIndex < |s.leaders| && route.validatorIndex < |s.validators|
    && route.endpointIndex < |s.endpoints|
  }

  /** What materialising copies, field by field. */
  lemma CopiesAre(s: Snapshot, routes: seq<RouteTarget>)
    requires forall r :: r in routes ==> RouteInRange(s, r)
    ensures forall k :: 0 <= k < |routes| ==>
      var t := Materialize(s, routes)[k];
      && routes[k].validatorIndex < |s.validators| && routes[k].endpointIndex < |s.endpoints|
      && t.leaderIndex == routes[k].leaderIndex && t.validatorIndex == routes[k].validatorIndex
      && t.endpointIndex == routes[k].endpointIndex
      && t.identity == s.validators[routes[k].validatorIndex].identity
      && t.endpoint == s.endpoints[routes[k].endpointIndex]
  {
    forall k | 0 <= k < |routes| ensures RouteInRange(s, routes[k]) {
      assert routes[k] in routes;
    }
  }

  /** `materialize_targets`: rejects an empty plan and the routes that leave the topology. */
  method MaterializeTargets(owned: OwnedTopology, routes: array<RouteTarget>, count: usize, targets: array<OwnedTarget>, ghost s: Snapshot)
    returns (status: Status)
    requires owned.Valid() && owned.HasContacts(s) && owned.leaderCount == |s.leaders|
    requires targets.Length == routes.Length == count
    modifies targets
    ensures status == if count > 0 && (forall r :: r in routes[..] ==> RouteInRange(s, r)) then Ok else InternalError
    ensures status == Ok <==> count > 0 && forall k :: 0 <= k < count ==>
      && routes[k].leaderIndex < owned.leaderCount && routes[k].validatorIndex < owned.validatorCount
      && routes[k].endpointIndex < owned.endpointCount
    ensures status == Ok ==> forall k :: 0 <= k < count ==>
      && targets[k].leaderIndex == routes[k].leaderIndex && targets[k].validatorIndex == routes[k].validatorIndex
      && targets[k].endpointIndex == routes[k].endpointIndex
      && targets[k].identity == s.validators[routes[k].validatorIndex].identity
      && targets[k].endpoint == s.endpoints[routes[k].endpointIndex]
    ensures status == Ok ==> targets[..] == Materialize(s, routes[..])
  {
    hide OwnedTargetOf, Materialize;
    if count == 0 {
      return InternalError;
    }
    ghost var rs := routes[..];
    var index: usize := 0;
    while index < count
      invariant index <= count && rs == routes[..] && owned.HasContacts(s)
      invariant forall k :: 0 <= k < index ==> RouteInRange(s, rs[k]) && targets[k] == OwnedTargetOf(s, rs[k])
    {
      var route := routes[index];
      assert route == rs[index] && route in rs;
      if route.leaderIndex >= owned.leaderCount || route.validatorIndex >= owned.validatorCount ||
         route.endpointIndex >= owned.endpointCount {
        return InternalError;
      }
      targets[index] := ReadTarget(owned, route, s);
      index := index + 1;
    }
    assert targets[..] == Materialize(s, rs);
    CopiesAre(s, rs);
    return Ok;
  }

  /** The copies one owned target is made of. */
  method ReadTarget(owned: OwnedTopology, route: RouteTarget, ghost s: Snapshot) returns (target: OwnedTarget)
    requires owned.Valid() && owned.HasContacts(s) && owned.leaderCount == |s.leaders| && RouteInRange(s, route)
    ensures target == OwnedTargetOf(s, route)
  {
    var identity := ReadIdentity(owned, route.validatorIndex);
    var endpoint := ReadEndpoint(owned, route.endpointIndex);
    target := OwnedTarget(route.leaderIndex, route.validatorIndex, route.endpointIndex, identity, endpoint);
  }

  /** Every planned route of a coherent snapshot can be materialised. */
  lemma RoutesInRange(s: Snapshot, limit: nat)
    requires Coherent(s)
    ensures forall r :: r in Routes(s, limit) ==> RouteInRange(s, r)
  {
    ResolvedIndicesValid(s, s.currentSlot);
    PlanIsBounded(Resolve(s, s.currentSlot), limit);
  }

  /** The three blocks a request keeps are there, different and filled. */
  ghost predicate KeptBlocks(transaction: array?<u8>, targets: array?<OwnedTarget>, request: Request?,
                             bytes: seq<u8>, owned: seq<OwnedTarget>)
    reads transaction, targets
  {
    && transaction != null && transaction[..] == bytes && transaction.Length <= SIZE_MAX
    && targets != null && targets[..] == owned && targets.Length <= SIZE_MAX
    && request != null
    && Differ(transaction, targets) && Differ(transaction, request) && Differ(targets, request)
  }

  /** The blocks one submission holds while it runs. */
  datatype Prepared = Prepared(
    candidates: array?<Candidate>, routes: array?<RouteTarget>,
    transaction: array?<u8>, targets: array?<OwnedTarget>, request: Request?)
  {
    ghost function Blocks(): set<object?> {
      {candidates as object?, routes as object?, transaction as object?, targets as object?, request as object?}
    }

    ghost function Scratch(): set<object?> {
      {candidates as object?, routes as object?}
    }

    ghost function Kept(): set<object?> {
      {transaction as object?, targets as object?, request as object?}
    }

    /** Five different blocks, or fewer with NULL in place of some. */
    ghost predicate Distinct() {
      && Differ(candidates, routes) && Differ(candidates, transaction) && Differ(candidates, targets)
      && Differ(candidates, request) && Differ(routes, transaction) && Differ(routes, targets)
      && Differ(routes, request) && Differ(transaction, targets) && Differ(transaction, request)
      && Differ(targets, request)
    }

    ghost predicate Filled(bytes: seq<u8>, owned: seq<OwnedTarget>)
      reads transaction, targets
    {
      KeptBlocks(transaction, targets, request, bytes, owned)
    }
  }

  /** The library's own copy of the caller's transaction. */
  method CopyTransaction(host: Host, source: array<u8>, length: usize) returns (status: Status, copy: array?<u8>)
    requires host.Valid() && 0 < length <= source.Length
    modifies host
    ensures host.Valid() && host.samples == old(host.samples) && host.live == old(host.live) + {copy}
    ensures FreshOrNull(copy)
    ensures
      var s := Serve(host.oracle, old(host.allocations), Demand(1, length));
      host.allocations == s.position && status == if s.granted then Ok else ResourceExhausted
    ensures status == Ok ==> copy != null && copy[..] == old(source[..length])
  {
    status, copy := host.AllocateArray(Demand(1, length), length, 0);
    if status == Ok {
      CopyBytes(copy, 0, source, 0, length);
      assert copy[..] == copy[0..0 + length] && source[..length] == source[0..0 + length];
    }
  }

  /** The owned targets of a planned submission. */
  method OwnTargets(host: Host, owned: OwnedTopology, routes: array<RouteTarget>, count: usize, limit: u32, ghost s: Snapshot)
    returns (status: Status, targets: array?<OwnedTarget>)
    requires host.Valid() && owned.Valid() && owned.HasContacts(s) && owned.leaderCount == |s.leaders| && Coherent(s)
    requires routes.Length == count > 0 && routes[..] == Routes(s, limit)
    modifies host
    ensures host.Valid() && host.samples == old(host.samples) && host.live == old(host.live) + {targets}
    ensures FreshOrNull(targets)
    ensures
      var t := Serve(host.oracle, old(host.allocations), Demand(count, OWNED_TARGET_SIZE));
      host.allocations == t.position && status == if t.granted then Ok else ResourceExhausted
    ensures status == Ok ==> targets != null && targets[..] == ChosenTargets(s, limit)
  {
    status, targets := host.AllocateArray(Demand(count, OWNED_TARGET_SIZE), count, ZERO_TARGET);
    if status == Ok {
      RoutesInRange(s, limit);
      status := MaterializeTargets(owned, routes, count, targets, s);
      if status != Ok {
        assert false;
      }
    }
  }

  method AllocateRequest(host: Host) returns (status: Status, request: Request?)
    requires host.Valid()
    modifies host
    ensures host.Valid() && host.samples == old(host.samples) && host.live == old(host.live) + {request}
    ensures FreshOrNull(request)
    ensures
      var s := Serve(host.oracle, old(host.allocations), Demand(1, REQUEST_SIZE));
      && host.allocations == s.position && status == (if s.granted then Ok else ResourceExhausted)
      && (request != null <==> s.granted)
  {
    var granted := host.Grant();
    if !granted {
      return ResourceExhausted, null;
    }
    request := new Request();
    host.Adopt(request);
    return Ok, request;
  }

  /** The candidates and routes of a submission. */
  method PlanSubmission(host: Host, owned: OwnedTopology, slot: u64, limit: u32, ghost s: Snapshot)
    returns (status: Status, candidates: array?<Candidate>, routes: array?<RouteTarget>, count: usize)
    requires host.Valid() && owned.Valid() && owned.HasSchedule(s) && slot == s.currentSlot && limit > 0
    modifies host
    ensures host.Valid() && host.samples == old(host.samples)
    ensures host.live == old(host.live) + {candidates as object?, routes as object?}
    ensures FreshOrNull(candidates) && FreshOrNull(routes) && Differ(candidates, routes)
    ensures
      var r := Resolve(s, slot);
      var c := Serve(host.oracle, old(host.allocations), Demand(|r|, CANDIDATE_SIZE));
      var supply := Then(host.oracle, c, Demand(|Routes(s, limit)|, ROUTE_SIZE));
      && host.allocations == supply.position
      && status == (if r == [] then TopologyUnavailable else if supply.granted then Ok else ResourceExhausted)
    ensures status == Ok ==> routes != null && routes[..] == Routes(s, limit) && count == routes.Length > 0
  {
    routes, count := null, 0;
    var found;
    status, candidates, found := ResolveCandidates(host, owned, slot, s);
    if status == Ok {
      status, routes, count := PlanTargets(host, candidates, found, limit);
    } else if Resolve(s, slot) == [] {
      assert Routes(s, limit) == [];
    }
  }

  /** The bytes and the targets of a request. */
  method OwnBuffers(host: Host, owned: OwnedTopology, routes: array<RouteTarget>, count: usize,
                    source: array<u8>, length: usize, limit: u32, ghost s: Snapshot)
    returns (status: Status, transaction: array?<u8>, targets: array?<OwnedTarget>)
    requires host.Valid() && owned.Valid() && owned.HasContacts(s) && owned.leaderCount == |s.leaders| && Coherent(s)
    requires 0 < length <= source.Length && routes.Length == count > 0 && routes[..] == Routes(s, limit)
    modifies host
    ensures host.Valid() && host.samples == old(host.samples)
    ensures host.live == old(host.live) + {transaction as object?, targets as object?}
    ensures FreshOrNull(transaction) && FreshOrNull(targets) && Differ(transaction, targets)
    ensures
      var t := Serve(host.oracle, old(host.allocations), Demand(1, length));
      var o := Then(host.oracle, t, Demand(count, OWNED_TARGET_SIZE));
      host.allocations == o.position && status == if o.granted then Ok else ResourceExhausted
    ensures status == Ok ==>
      && transaction != null && transaction.Length == length && transaction[..] == old(source[..length])
      && targets != null && targets.Length == count && targets[..] == ChosenTargets(s, limit)
  {
    hide Coherent, Routes, Serve;
    targets := null;
    status, transaction := CopyTransaction(host, source, length);
    if status == Ok {
      status, targets := OwnTargets(host, owned, routes, count, limit, s);
    }
  }

  /** The three allocations a request keeps. */
  method OwnRequest(host: Host, owned: OwnedTopology, routes: array<RouteTarget>, count: usize,
                    source: array<u8>, length: usize, limit: u32, ghost s: Snapshot)
    returns (status: Status, transaction: array?<u8>, targets: array?<OwnedTarget>, request: Request?)
    requires host.Valid() && owned.Valid() && owned.HasContacts(s) && owned.leaderCount == |s.leaders| && Coherent(s)
    requires 0 < length <= source.Length && routes.Length == count > 0 && routes[..] == Routes(s, limit)
    modifies host
    ensures host.Valid() && host.samples == old(host.samples)
    ensures host.live == old(host.live) + {transaction as object?, targets as object?, request as object?}
    ensures FreshOrNull(transaction) && FreshOrNull(targets) && FreshOrNull(request)
    ensures Differ(transaction, targets) && Differ(transaction, request) && Differ(targets, request)
    ensures
      var t := Serve(host.oracle, old(host.allocations), Demand(1, length));
      var o := Then(host.oracle, t, Demand(count, OWNED_TARGET_SIZE));
      var q := Then(host.oracle, o, Demand(1, REQUEST_SIZE));
      host.allocations == q.position && status == if q.granted then Ok else ResourceExhausted
    ensures status == Ok ==>
      KeptBlocks(transaction, targets, request, old(source[..length]), ChosenTargets(s, limit))
  {
    hide Coherent, Routes, ChosenTargets, Serve;
    request := null;
    status, transaction, targets := OwnBuffers(host, owned, routes, count, source, length, limit, s);
    if status != Ok { return; }
    status, request := AllocateRequest(host);
  }

  lemma Gathered(base: set<object?>, p: Prepared)
    requires null in base
    ensures
      var planned := base + {p.candidates as object?, p.routes as object?};
      && planned + {p.transaction as object?, p.targets as object?, p.request as object?} == base + p.Blocks()
      && (p.transaction == null && p.targets == null && p.request == null ==> planned == base + p.Blocks())
  {
  }

  /** Everything between admission and the choice of an id: on Ok the request's blocks are
      filled, and whatever the outcome `p` lists every block gained. */
  method PrepareSubmission(host: Host, owned: OwnedTopology, slot: u64, source: array<u8>, length: usize, limit: u32, ghost s: Snapshot)
    returns (status: Status, p: Prepared)
    requires host.Valid() && owned.Valid() && owned.HasSchedule(s) && owned.HasContacts(s) && Coherent(s)
    requires slot == s.currentSlot && 0 < length <= source.Length && limit > 0
    modifies host
    ensures host.Valid() && host.samples == old(host.samples)
    ensures host.live == old(host.live) + p.Blocks()
    ensures FreshOrNull(p.candidates) && FreshOrNull(p.routes)
    ensures FreshOrNull(p.transaction) && FreshOrNull(p.targets) && FreshOrNull(p.request) && p.Distinct()
    ensures
      var r := Resolve(s, slot);
      var supply := PrepareSupply(host.oracle, old(host.allocations), |r|, |Routes(s, limit)|, length);
      && host.allocations == (if r == [] then old(host.allocations) else supply.position)
      && status == (if r == [] then TopologyUnavailable else if supply.granted then Ok else ResourceExhausted)
    ensures status == Ok ==> p.Filled(old(source[..length]), ChosenTargets(s, limit))
  {
    ghost var base := host.live;
    var candidates, routes, count;
    var transaction, targets, request := null, null, null;
    status, candidates, routes, count := PlanSubmission(host, owned, slot, limit, s);
    if status == Ok {
      status, transaction, targets, request := OwnRequest(host, owned, routes, count, source, length, limit, s);
    }
    p := Prepared(candidates, routes, transaction, targets, request);
    Gathered(base, p);
  }

  /** The cleanup of a submission: the scratch arrays always, the request's blocks on failure. */
  method ReleasePrepared(host: Host, p: Prepared, keep: bool)
    requires host.Valid() && p.Blocks() <= host.live && p.Distinct()
    modifies host, if keep then p.Scratch() else p.Blocks()
    ensures host.Valid() && host.allocations == old(host.allocations) && host.samples == old(host.samples)
    ensures host.live == old(host.live) - (if keep then p.Scratch() else p.Blocks()) + {null}
  {
    host.Free(p.candidates);
    host.Free(p.routes);
    if !keep {
      host.Free(p.transaction);
      host.Free(p.targets);
      host.Free(p.request);
    }
  }
}
