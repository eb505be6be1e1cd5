/** What every client operation means, as a function of the client's abstract state, the
    arguments and the environment's answers. The heap, the size probes, the cleanup paths and
    the ring are absent here; the client module proves that they change nothing. */
module Delivery {
  import opened Machine
  import opened Records
  import opened Topology
  import opened Ownership
  import opened Resolution
  import opened Routing
  import opened Events

  const NO_REQUEST: u64 := 0
  const NO_ATTEMPT: u64 := 0
  const STATE_ACCEPTED: u32 := 1
  const CLASS_REQUEST: u32 := 1
  const CODE_ACCEPTED: u32 := 1
  const OPTIONS_SIZE: nat := 24
  const OWNED_TARGET_SIZE: nat := 76
  const REQUEST_SIZE: nat := 80

  /** A target a request owns: planner provenance plus copies of what the indices denoted. */
  datatype OwnedTarget = OwnedTarget(
    leaderIndex: u32, validatorIndex: u32, endpointIndex: u32, identity: seq<u8>, endpoint: Endpoint)

  /** Everything an accepted request owns. */
  datatype Accepted = Accepted(
    id: u64, generation: u64, routingSlot: u64, transaction: seq<u8>,
    targets: seq<OwnedTarget>, state: u32, nextSequence: u64)

  /** `requests` lists the accepted requests oldest first. The last two fields count the
      answers taken from the oracle so far. */
  datatype State = State(
    snapshot: Option<Snapshot>, requests: seq<Accepted>, nextId: u64, queue: seq<Event>,
    allocations: nat, samples: nat)

  const ZERO_ENDPOINT := Endpoint(0, 0, 0, 0, 0, 0, 0, [], [])
  const ZERO_TARGET := OwnedTarget(0, 0, 0, [], ZERO_ENDPOINT)

  // ---------- submission ----------

  datatype Options = Options(structSize: u32, flags: u32, maxAge: u64, targetLimit: u32, reserved0: u32)

  /** `idOut`: the id pointer is usable. `present`: the transaction pointer is non-NULL.
      `options` is None when its pointer is NULL or misaligned. */
  datatype Submission = Submission(idOut: bool, present: bool, transaction: seq<u8>, options: Option<Options>)

  datatype Submitted = Submitted(status: Status, id: u64, next: State)

  function OptionsVerdict(options: Option<Options>): Status {
    match options
    case None => InvalidArgument
    case Some(o) =>
      if o.structSize < OPTIONS_SIZE then InvalidArgument
      else if o.flags != 0 then Unsupported
      else Verdict(o.reserved0 == 0 && o.maxAge != 0 && o.targetLimit != 0)
  }

  function ArgumentsVerdict(r: Submission): Status {
    if r.idOut && r.present && r.transaction != [] then OptionsVerdict(r.options) else InvalidArgument
  }

  /** The freshness gate on one clock sample. */
  function AdmissionVerdict(sample: Reading, received: u64, maxAge: u64): Status {
    if sample.status != Ok then sample.status
    else if sample.time < received then InternalError
    else if sample.time - received > maxAge then TopologyStale
    else Ok
  }

  /** The check on the sample that stamps the accepted event. */
  function StampVerdict(sample: Reading, received: u64): Status {
    if sample.status != Ok then sample.status else if sample.time < received then InternalError else Ok
  }

  /** Copies the identity and endpoint that a route's indices denote. Both indices are always
      in range: see MaterializedFromSnapshot. */
  function OwnedTargetOf(s: Snapshot, route: RouteTarget): OwnedTarget {
    OwnedTarget(
      route.leaderIndex, route.validatorIndex, route.endpointIndex,
      if route.validatorIndex < |s.validators| then s.validators[route.validatorIndex].identity else [],
      if route.endpointIndex < |s.endpoints| then s.endpoints[route.endpointIndex] else ZERO_ENDPOINT)
  }

  function Materialize(s: Snapshot, routes: seq<RouteTarget>): (r: seq<OwnedTarget>)
    ensures |r| == |routes|
    ensures forall i :: 0 <= i < |routes| ==> r[i] == OwnedTargetOf(s, routes[i])
  {
    seq(|routes|, i requires 0 <= i < |routes| => OwnedTargetOf(s, routes[i]))
  }

  function Routes(s: Snapshot, limit: nat): seq<RouteTarget> {
    Plan(Resolve(s, s.currentSlot), limit)
  }

  /** The targets a submission against `s` owns. */
  function ChosenTargets(s: Snapshot, limit: nat): seq<OwnedTarget> {
    Materialize(s, Routes(s, limit))
  }

  /** The five allocations of one submission, in order. */
  function PrepareSupply(oracle: Oracle, position: nat, candidates: nat, targets: nat, length: nat): Supply
    requires length > 0
  {
    var c := Serve(oracle, position, Demand(candidates, CANDIDATE_SIZE));
    var r := Then(oracle, c, Demand(targets, ROUTE_SIZE));
    var t := Then(oracle, r, Demand(1, length));
    var o := Then(oracle, t, Demand(targets, OWNED_TARGET_SIZE));
    Then(oracle, o, Demand(1, REQUEST_SIZE))
  }

  function AcceptedEvent(id: u64, time: u64): Event {
    Event(EVENT_SIZE, CLASS_REQUEST, CODE_ACCEPTED, 0, id, NO_ATTEMPT, 1, time, 0, 0)
  }

  function RequestFrom(id: u64, s: Snapshot, transaction: seq<u8>, limit: nat): Accepted {
    Accepted(id, s.generation, s.currentSlot, transaction, ChosenTargets(s, limit), STATE_ACCEPTED, 2)
  }

  function NextId(id: u64): u64 {
    if id == U64_MAX then NO_REQUEST else id + 1
  }

  function Commit(s: State, snapshot: Snapshot, transaction: seq<u8>, limit: nat, time: u64): State {
    s.(requests := s.requests + [RequestFrom(s.nextId, snapshot, transaction, limit)],
       queue := s.queue + [AcceptedEvent(s.nextId, time)],
       nextId := NextId(s.nextId))
  }

  /** `solana_delivery_client_submit` */
  function Submit(oracle: Oracle, s: State, r: Submission): Submitted {
    var arguments := ArgumentsVerdict(r);
    if arguments != Ok then Submitted(arguments, NO_REQUEST, s)
    else if s.snapshot.None? then Submitted(TopologyUnavailable, NO_REQUEST, s)
    else SubmitChecked(oracle, s, s.snapshot.value, r.transaction, r.options.value)
  }

  function SubmitChecked(oracle: Oracle, s: State, snapshot: Snapshot, transaction: seq<u8>, options: Options): Submitted
    requires transaction != []
  {
    var admission := AdmissionVerdict(oracle.clock(s.samples), snapshot.received, options.maxAge);
    var admitted := s.(samples := s.samples + 1);
    if admission != Ok then Submitted(admission, NO_REQUEST, admitted)
    else SubmitAdmitted(oracle, admitted, snapshot, transaction, options.targetLimit)
  }

  function SubmitAdmitted(oracle: Oracle, s: State, snapshot: Snapshot, transaction: seq<u8>, limit: nat): Submitted
    requires transaction != []
  {
    var candidates := Resolve(snapshot, snapshot.currentSlot);
    if candidates == [] then Submitted(TopologyUnavailable, NO_REQUEST, s)
    else
      var supply := PrepareSupply(oracle, s.allocations, |candidates|, |Routes(snapshot, limit)|, |transaction|);
      var prepared := s.(allocations := supply.position);
      if !supply.granted then Submitted(ResourceExhausted, NO_REQUEST, prepared)
      else SubmitPrepared(oracle, prepared, snapshot, transaction, limit)
  }

  function SubmitPrepared(oracle: Oracle, s: State, snapshot: Snapshot, transaction: seq<u8>, limit: nat): Submitted {
    if s.nextId == NO_REQUEST || |s.queue| >= QUEUE_CAPACITY then Submitted(ResourceExhausted, NO_REQUEST, s)
    else
      var sample := oracle.clock(s.samples);
      var stamped := s.(samples := s.samples + 1);
      var stamp := StampVerdict(sample, snapshot.received);
      if stamp != Ok then Submitted(stamp, NO_REQUEST, stamped)
      else Submitted(Ok, s.nextId, Commit(stamped, snapshot, transaction, limit, sample.time))
  }

  // ---------- installation ----------

  datatype Installed = Installed(status: Status, next: State)

  /** `solana_delivery_client_install_topology` */
  function Install(oracle: Oracle, s: State, t: TopologyInput): Installed {
    var verdict := Validate(t);
    if verdict != Ok then Installed(verdict, s)
    else if s.snapshot.Some? && t.generation <= s.snapshot.value.generation then Installed(TopologyStale, s)
    else InstallChecked(oracle, s, t)
  }

  /** An installation once its topology is known to be valid and newer. */
  function InstallChecked(oracle: Oracle, s: State, t: TopologyInput): Installed {
    var supply := BuildSupply(oracle, s.allocations, t.validators.count, t.endpoints.count,
                              t.associations.count, t.leaders.count);
    var built := s.(allocations := supply.position);
    if !supply.granted then Installed(ResourceExhausted, built)
    else
      var sample := oracle.clock(s.samples);
      var sampled := built.(samples := s.samples + 1);
      if sample.status != Ok then Installed(sample.status, sampled)
      else Installed(Ok, sampled.(snapshot := Some(SnapshotOf(t, sample.time))))
  }

  /** One refresh: what the provider descriptor says and what its acquire callback returned. */
  datatype Offer = Offer(
    addressable: bool, structSize: u32, flags: u32, hasAcquire: bool, hasRelease: bool,
    acquired: Status, topology: Option<TopologyInput>)

  const PROVIDER_SIZE: nat := 32

  function ProviderVerdict(addressable: bool, structSize: u32, flags: u32, hasAcquire: bool): Status {
    if !addressable || structSize < PROVIDER_SIZE then InvalidArgument
    else if flags != 0 then Unsupported
    else Verdict(hasAcquire)
  }

  /** `solana_delivery_client_refresh_topology` */
  function Refresh(oracle: Oracle, s: State, o: Offer): Installed {
    var verdict := ProviderVerdict(o.addressable, o.structSize, o.flags, o.hasAcquire);
    if verdict != Ok then Installed(verdict, s)
    else if o.acquired != Ok then Installed(o.acquired, s)
    else if o.topology.None? then Installed(InternalError, s)
    else Install(oracle, s, o.topology.value)
  }

  // ---------- polling ----------

  datatype PollRequest = PollRequest(counted: bool, buffered: bool, capacity: usize, stride: u32)

  datatype Polled = Polled(status: Status, events: seq<Event>, next: State)

  /** `solana_delivery_client_poll_events` */
  function Poll(s: State, p: PollRequest): Polled {
    var status := PollStatus(p.counted, p.buffered, p.capacity, p.stride);
    var events := Drained(s.queue, status, p.capacity);
    Polled(status, events, s.(queue := s.queue[|events|..]))
  }
}
