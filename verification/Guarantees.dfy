/** What the client guarantees over whole runs, and per call for every input. */
module Guarantees {
  import opened Machine
  import opened Records
  import opened Layout
  import opened Topology
  import opened Ownership
  import opened Resolution
  import opened Routing
  import opened Events
  import opened Delivery
  import opened Runs

  // ---------- events ----------

  lemma {:induction false} EventsOfAt(admissions: seq<Admission>, i: nat)
    requires i < |admissions| <= U64_MAX
    ensures EventsOf(admissions)[i] == AcceptedEvent(i + 1, admissions[i].acceptedAt)
  {
    if i < |admissions| - 1 {
      EventsOfAt(admissions[..|admissions| - 1], i);
    }
  }

  /** The fields of a request's accepted event: 64 bytes written, request class, accepted code,
      no diagnostic, no attempt, first in the request's sequence. */
  predicate IsAcceptedEvent(e: Event, id: nat) {
    && e.structSize == 64 && e.eventClass == 1 && e.eventCode == 1 && e.diagnostic == 0
    && e.requestId == id && e.attemptId == 0 && e.sequence == 1 && e.reserved0 == 0 && e.reserved1 == 0
  }

  /** Exactly-once FIFO delivery. After any run, what was drained followed by what is still
      queued is one accepted event per accepted request, in acceptance order; ids count from 1
      without gaps or reuse until they run out for good; and a caller is never more than 64
      events behind. */
  lemma ExactlyOnceFifo(oracle: Oracle, h: History)
    requires Reachable(oracle, h)
    ensures
      var events := h.drained + h.state.queue;
      var n := |h.state.requests|;
      && |events| == n <= U64_MAX && n - |h.drained| <= 64
      && (forall i :: 0 <= i < n ==>
            && h.state.requests[i].id == i + 1
            && h.state.requests[i].state == 1 && h.state.requests[i].nextSequence == 2
            && IsAcceptedEvent(events[i], i + 1))
      && h.state.nextId == if n == U64_MAX then 0 else n + 1
  {
    ReachableIsSound(oracle, h);
    forall i | 0 <= i < |h.state.requests|
      ensures
        && h.state.requests[i].id == i + 1
        && h.state.requests[i].state == 1 && h.state.requests[i].nextSequence == 2
        && IsAcceptedEvent((h.drained + h.state.queue)[i], i + 1)
    {
      assert RequestSound(h, i);
      EventsOfAt(h.admissions, i);
    }
  }

  /** What a caller sees of a whole run: the ids it is given are 1, 2, 3 and so on, one per
      accepted request, and the events it is handed are the accepted events of those ids in the
      same order, never one it has no id for. */
  lemma CallerSeesEachRequestOnce(oracle: Oracle, allocations: nat, samples: nat, ops: seq<Op>)
    ensures
      var h := Initial(allocations, samples);
      var outs, end := Outcomes(oracle, h, ops), Run(oracle, h, ops);
      && |Given(outs)| == |end.state.requests| && |Handed(outs)| <= |Given(outs)| <= |Handed(outs)| + 64
      && (forall i :: 0 <= i < |Given(outs)| ==> Given(outs)[i] == i + 1)
      && forall i :: 0 <= i < |Handed(outs)| ==> IsAcceptedEvent(Handed(outs)[i], Given(outs)[i])
  {
    var h := Initial(allocations, samples);
    var outs, end := Outcomes(oracle, h, ops), Run(oracle, h, ops);
    RunIsReachable(oracle, allocations, samples, ops);
    OutcomesTellRun(oracle, h, ops);
    hide Run, Outcomes, Handed, Given, Reachable;
    ExactlyOnceFifo(oracle, end);
    assert Handed(outs) == end.drained && Given(outs) == Ids(end.state.requests);
    forall i | 0 <= i < |Handed(outs)|
      ensures IsAcceptedEvent(Handed(outs)[i], Given(outs)[i])
    {
      assert (end.drained + end.state.queue)[i] == end.drained[i];
    }
  }

  /** A poll whose arguments the library must accept. */
  predicate Pollable(p: PollRequest) {
    && p.counted
    && (p.capacity == 0 || (p.buffered && p.stride >= 64 && p.stride % 8 == 0 && p.capacity * p.stride <= SIZE_MAX))
  }

  /** The whole of polling: which arguments are accepted, and that an accepted poll hands out the
      oldest events, as many as fit, and removes exactly those. */
  lemma StatusOfPoll(s: State, p: PollRequest)
    ensures
      var out := Poll(s, p);
      var n := if !Pollable(p) then 0 else if p.capacity < |s.queue| then p.capacity else |s.queue|;
      && out.status == (if Pollable(p) then Ok else InvalidArgument)
      && out.events == s.queue[..n] && out.next == s.(queue := s.queue[n..])
  {
    PollAccepts(p.counted, p.buffered, p.capacity, p.stride);
    hide PollStatus;
  }

  /** No event is stuck: a poll with room for a full queue leaves every accepted event drained. */
  lemma EverythingCanBeDrained(oracle: Oracle, h: History, p: PollRequest)
    requires Reachable(oracle, h) && Pollable(p) && p.capacity >= 64
    ensures
      var next := Step(oracle, h, PollOp(p));
      && next.state.queue == [] && next.drained == h.drained + h.state.queue
      && |next.drained| == |next.state.requests|
  {
    hide Reachable, PollStatus;
    ReachableIsSound(oracle, h);
    StatusOfPoll(h.state, p);
  }

  lemma SmallerBuffer(j: nat, k: nat, stride: nat)
    ensures j * stride <= (j + k) * stride && k * stride <= (j + k) * stride
  {
  }

  /** Polling for j and then for k events is polling for j + k: same events, same state. */
  lemma PollsCompose(s: State, j: usize, k: usize, stride: u32)
    requires j + k <= SIZE_MAX && Pollable(PollRequest(true, true, j + k, stride))
    ensures
      var first := Poll(s, PollRequest(true, true, j, stride));
      var second := Poll(first.next, PollRequest(true, true, k, stride));
      var both := Poll(s, PollRequest(true, true, j + k, stride));
      && first.status == second.status == both.status == Ok
      && first.events + second.events == both.events && second.next == both.next
  {
    hide Poll;
    var first := Poll(s, PollRequest(true, true, j, stride));
    SmallerBuffer(j, k, stride);
    StatusOfPoll(s, PollRequest(true, true, j, stride));
    StatusOfPoll(first.next, PollRequest(true, true, k, stride));
    StatusOfPoll(s, PollRequest(true, true, j + k, stride));
  }

  // ---------- nothing accepted, drained or installed is ever revised ----------

  lemma StepOnlyAppends(oracle: Oracle, h: History, op: Op)
    ensures
      var next := Step(oracle, h, op);
      && h.state.requests <= next.state.requests && h.drained <= next.drained
      && h.installs <= next.installs && h.admissions <= next.admissions
  {
    hide Install, Submit;
    match op
    case InstallOp(t) => InstallShape(oracle, h.state, t);
    case RefreshOp(o) => if o.topology.Some? { InstallShape(oracle, h.state, o.topology.value); }
    case SubmitOp(r) => SubmitShape(oracle, h.state, r);
    case PollOp(p) =>
  }

  lemma {:induction false} TraceOnlyAppends(oracle: Oracle, trace: seq<History>, ops: seq<Op>, k: nat)
    requires IsTrace(oracle, trace, ops) && k <= |ops|
    ensures
      && trace[0].state.requests <= trace[k].state.requests && trace[0].drained <= trace[k].drained
      && trace[0].installs <= trace[k].installs && trace[0].admissions <= trace[k].admissions
  {
    hide Step;
    if k > 0 {
      TraceOnlyAppends(oracle, trace, ops, k - 1);
      assert trace[k] == Step(oracle, trace[k - 1], ops[k - 1]);
      StepOnlyAppends(oracle, trace[k - 1], ops[k - 1]);
    }
  }

  /** Accepted requests never change, whatever happens after acceptance. */
  lemma LaterRunsOnlyAppend(oracle: Oracle, h: History, later: History)
    requires Leads(oracle, h, later)
    ensures h.state.requests <= later.state.requests && h.drained <= later.drained
    ensures h.installs <= later.installs && h.admissions <= later.admissions
  {
    var trace, ops :| IsTrace(oracle, trace, ops) && trace[0] == h && trace[|ops|] == later;
    TraceOnlyAppends(oracle, trace, ops, |ops|);
  }

  /** Each accepted request is what its transaction and the snapshot installed at acceptance
      determine: the first `limit` distinct targets of the join at that snapshot's slot, with
      identities and endpoints copied out of it. */
  lemma RequestsMeanTheirSnapshot(oracle: Oracle, h: History, i: nat)
    requires Reachable(oracle, h)
    requires i < |h.state.requests|
    ensures
      && i < |h.admissions| && h.admissions[i].era < |h.installs|
      && var a, r, s := h.admissions[i], h.state.requests[i], h.installs[h.admissions[i].era];
      && r.transaction == a.transaction && r.transaction != []
      && r.generation == s.generation && r.routingSlot == s.currentSlot
      && r.targets == Materialize(s, Plan(Resolve(s, s.currentSlot), a.limit))
      && 1 <= |r.targets| == Min(|Targets(Resolve(s, s.currentSlot))|, a.limit)
  {
    ReachableIsSound(oracle, h);
    assert RequestSound(h, i);
    PlanIsBounded(Resolve(h.installs[h.admissions[i].era], h.installs[h.admissions[i].era].currentSlot), h.admissions[i].limit);
  }

  /** Every target of an accepted request is the route planned at its place: the same three
      indices, the identity and endpoint that the snapshot has at them, a leader of the current
      slot with that validator, and an association of that validator with that endpoint. */
  lemma MaterializedFromSnapshot(oracle: Oracle, h: History, i: nat, k: nat)
    requires Reachable(oracle, h)
    requires i < |h.state.requests|
    requires k < |h.state.requests[i].targets|
    ensures
      && i < |h.admissions| && h.admissions[i].era < |h.installs|
      && var s, t := h.installs[h.admissions[i].era], h.state.requests[i].targets[k];
      && var plan := Plan(Resolve(s, s.currentSlot), h.admissions[i].limit);
      && |plan| == |h.state.requests[i].targets|
      && t.leaderIndex == plan[k].leaderIndex && t.validatorIndex == plan[k].validatorIndex
      && t.endpointIndex == plan[k].endpointIndex
      && t.leaderIndex < |s.leaders| && t.validatorIndex < |s.validators| && t.endpointIndex < |s.endpoints|
      && t.identity == s.validators[t.validatorIndex].identity && t.endpoint == s.endpoints[t.endpointIndex]
      && s.leaders[t.leaderIndex].firstSlot <= s.currentSlot <= s.leaders[t.leaderIndex].lastSlot
      && s.leaders[t.leaderIndex].validatorIndex == t.validatorIndex
      && exists a :: a in s.associations && a.validatorIndex == t.validatorIndex && a.endpointIndex == t.endpointIndex
  {
    ReachableIsSound(oracle, h);
    assert RequestSound(h, i);
    var s := h.installs[h.admissions[i].era];
    RouteIsContact(s, h.admissions[i].limit, k);
  }

  /** A planned route leads from a leader of the slot over an association to an endpoint. */
  lemma RouteIsContact(s: Snapshot, limit: nat, k: nat)
    requires Coherent(s) && k < |Routes(s, limit)|
    ensures
      var r := Routes(s, limit)[k];
      && r.leaderIndex < |s.leaders| && r.validatorIndex < |s.validators| && r.endpointIndex < |s.endpoints|
      && s.leaders[r.leaderIndex].firstSlot <= s.currentSlot <= s.leaders[r.leaderIndex].lastSlot
      && s.leaders[r.leaderIndex].validatorIndex == r.validatorIndex
      && exists a :: a in s.associations && a.validatorIndex == r.validatorIndex && a.endpointIndex == r.endpointIndex
  {
    var cs := Resolve(s, s.currentSlot);
    var route := Routes(s, limit)[k];
    PlanIsBounded(cs, limit);
    ResolvedIndicesValid(s, s.currentSlot);
    hide Plan, FirstOccurrences, Resolve, AllMatches, Matches, Targets;
    assert route in cs;
    var j :| 0 <= j < |cs| && cs[j] == route;
    CandidatesAre(s, s.currentSlot, j);
    ResolutionIsTheJoin(s, s.currentSlot);
    var p := AllMatches(s, s.currentSlot)[j];
    assert p in AllMatches(s, s.currentSlot);
    assert s.associations[p.association] in s.associations;
  }

  /** Two requests of one generation were planned on one snapshot: same slot, and the shorter
      target list is a prefix of the longer. Generations never decrease in acceptance order. */
  lemma SameGenerationCoherence(oracle: Oracle, h: History, i: nat, j: nat)
    requires Reachable(oracle, h)
    requires i <= j < |h.state.requests|
    ensures
      var a, b := h.state.requests[i], h.state.requests[j];
      && a.generation <= b.generation
      && (a.generation == b.generation ==>
            a.routingSlot == b.routingSlot && (a.targets <= b.targets || b.targets <= a.targets))
  {
    ReachableIsSound(oracle, h);
    assert RequestSound(h, i) && RequestSound(h, j);
    var x, y := h.admissions[i], h.admissions[j];
    if x.era == y.era {
      PrefixOfLarger(h.installs[x.era], Min(x.limit, y.limit), if x.limit < y.limit then y.limit else x.limit);
    } else {
      assert h.installs[x.era].generation < h.installs[y.era].generation;
    }
  }

  lemma PrefixOfLarger(s: Snapshot, limit: nat, larger: nat)
    requires limit <= larger
    ensures ChosenTargets(s, limit) <= ChosenTargets(s, larger)
  {
    PlanIsMonotone(Resolve(s, s.currentSlot), limit, larger);
  }

  /** Along any run the installed generations strictly increase and the last one is current. */
  lemma GenerationsIncrease(oracle: Oracle, h: History)
    requires Reachable(oracle, h)
    ensures
      && (forall i, j :: 0 <= i < j < |h.installs| ==> h.installs[i].generation < h.installs[j].generation)
      && h.state.snapshot == if h.installs == [] then None else Some(h.installs[|h.installs| - 1])
  {
    hide Run, Coherent, RequestsSound, EventsSound;
    ReachableIsSound(oracle, h);
  }

  /** Every accepted request was admitted on a topology no older than it allowed, by a sample
      not before the topology's receipt, and its event is not stamped before that receipt. */
  lemma AdmittedFresh(oracle: Oracle, h: History, i: nat)
    requires Reachable(oracle, h)
    requires i < |h.state.requests|
    ensures
      && i < |h.admissions| && h.admissions[i].era < |h.installs|
      && |h.drained + h.state.queue| == |h.admissions|
      && var a, s := h.admissions[i], h.installs[h.admissions[i].era];
      && s.received <= a.admittedAt <= s.received + a.maxAge
      && s.received <= a.acceptedAt == (h.drained + h.state.queue)[i].time
  {
    ReachableIsSound(oracle, h);
    assert RequestSound(h, i);
    EventsOfAt(h.admissions, i);
  }

  // ---------- one submission ----------

  lemma OverflowIsExact(d: Demand)
    requires d.size > 0
    ensures Overflows(d) <==> d.count * d.size > SIZE_MAX
  {
    DivisionBound(d.count, d.size, SIZE_MAX);
  }

  /** The five allocations succeed exactly when no byte count overflows and five consecutive
      callocs are granted. */
  lemma PrepareGranted(oracle: Oracle, position: nat, candidates: nat, targets: nat, length: nat)
    requires candidates > 0 && 0 < targets <= U32_MAX && length > 0
    ensures
      PrepareSupply(oracle, position, candidates, targets, length).granted <==>
        && candidates * CANDIDATE_SIZE <= SIZE_MAX && length <= SIZE_MAX
        && forall k :: position <= k < position + 5 ==> oracle.grants(k)
  {
    OverflowIsExact(Demand(candidates, CANDIDATE_SIZE));
    OverflowIsExact(Demand(targets, ROUTE_SIZE));
    OverflowIsExact(Demand(1, length));
    OverflowIsExact(Demand(targets, OWNED_TARGET_SIZE));
    OverflowIsExact(Demand(1, REQUEST_SIZE));
    assert (forall k :: position <= k < position + 5 ==> oracle.grants(k)) <==>
      oracle.grants(position) && oracle.grants(position + 1) && oracle.grants(position + 2)
      && oracle.grants(position + 3) && oracle.grants(position + 4);
  }

  /** Some leader whose range contains the slot has an association to an endpoint. */
  ghost predicate HasContact(s: Snapshot, slot: u64) {
    exists i, j ::
      && 0 <= i < |s.leaders| && 0 <= j < |s.associations|
      && s.leaders[i].firstSlot <= slot <= s.leaders[i].lastSlot
      && s.associations[j].validatorIndex == s.leaders[i].validatorIndex
  }

  /** A slot resolves to nothing exactly when no leader that contains it has an endpoint. */
  lemma ResolvesWhenMatched(s: Snapshot, slot: u64)
    ensures Resolve(s, slot) != [] <==> HasContact(s, slot)
  {
    ResolutionIsTheJoin(s, slot);
    var all := AllMatches(s, slot);
    hide AllMatches, Matches;
    if all != [] {
      assert all[0] in all;
    }
    if HasContact(s, slot) {
      var i, j :| 0 <= i < |s.leaders| && 0 <= j < |s.associations|
        && s.leaders[i].firstSlot <= slot <= s.leaders[i].lastSlot
        && s.associations[j].validatorIndex == s.leaders[i].validatorIndex;
      assert Pair(i, j) in all;
    }
  }

  predicate GoodSample(sample: Reading, topology: Snapshot) {
    sample.status == Ok && topology.received <= sample.time
  }

  /** Usable arguments, an installed topology and a first sample at which it is young enough. */
  predicate Admitted(oracle: Oracle, s: State, r: Submission) {
    && ArgumentsVerdict(r) == Ok && s.snapshot.Some?
    && GoodSample(oracle.clock(s.samples), s.snapshot.value)
    && oracle.clock(s.samples).time - s.snapshot.value.received <= r.options.value.maxAge
  }

  /** Some leader of the current slot has an endpoint. */
  ghost predicate Contactable(topology: Snapshot) {
    HasContact(topology, topology.currentSlot)
  }

  /** Byte counts that fit, five allocations, an id and an event slot. */
  ghost predicate Resourced(oracle: Oracle, s: State, r: Submission)
    requires s.snapshot.Some?
  {
    && |AllMatches(s.snapshot.value, s.snapshot.value.currentSlot)| * 12 <= SIZE_MAX
    && |r.transaction| <= SIZE_MAX
    && (forall k :: s.allocations <= k < s.allocations + 5 ==> oracle.grants(k))
    && s.nextId != 0 && |s.queue| < 64
  }

  /** Everything a submission needs before its second clock sample. */
  ghost predicate Stampable(oracle: Oracle, s: State, r: Submission) {
    Admitted(oracle, s, r) && Contactable(s.snapshot.value) && Resourced(oracle, s, r)
  }

  /** The complete condition under which a submission is accepted, in terms of the arguments,
      the state and the answers of the environment. */
  ghost predicate Acceptable(oracle: Oracle, s: State, r: Submission) {
    Stampable(oracle, s, r) && GoodSample(oracle.clock(s.samples + 1), s.snapshot.value)
  }

  /** A submission that passed admission. */
  lemma AdmittedStatus(oracle: Oracle, s: State, r: Submission)
    requires Admitted(oracle, s, r)
    ensures Submit(oracle, s, r).status ==
      if !Contactable(s.snapshot.value) then TopologyUnavailable
      else if !Resourced(oracle, s, r) then ResourceExhausted
      else StampVerdict(oracle.clock(s.samples + 1), s.snapshot.value.received)
  {
    var topology, limit := s.snapshot.value, r.options.value.targetLimit;
    var cs := Resolve(topology, topology.currentSlot);
    ResolvesWhenMatched(topology, topology.currentSlot);
    if cs != [] {
      PlanIsBounded(cs, limit);
      UniqueCountIsCardinality(cs);
      PrepareGranted(oracle, s.allocations, |cs|, |Routes(topology, limit)|, |r.transaction|);
    }
    hide Resolve, PrepareSupply, Matches, AllMatches, Routes, Plan;
  }

  /** The status of every submission against every environment: the first gate that fails. */
  lemma StatusOfSubmit(oracle: Oracle, s: State, r: Submission)
    ensures Submit(oracle, s, r).status ==
      if ArgumentsVerdict(r) != Ok then ArgumentsVerdict(r)
      else if s.snapshot.None? then TopologyUnavailable
      else if !Admitted(oracle, s, r) then
        AdmissionVerdict(oracle.clock(s.samples), s.snapshot.value.received, r.options.value.maxAge)
      else if !Contactable(s.snapshot.value) then TopologyUnavailable
      else if !Resourced(oracle, s, r) then ResourceExhausted
      else StampVerdict(oracle.clock(s.samples + 1), s.snapshot.value.received)
  {
    if Admitted(oracle, s, r) {
      AdmittedStatus(oracle, s, r);
      hide Submit, Contactable, Resourced;
    } else {
      hide SubmitAdmitted, ArgumentsVerdict, Contactable, Resourced;
    }
  }

  lemma SubmitAcceptsExactlyWhen(oracle: Oracle, s: State, r: Submission)
    ensures Submit(oracle, s, r).status == Ok <==> Acceptable(oracle, s, r)
  {
    StatusOfSubmit(oracle, s, r);
    hide Submit, Contactable, Resourced, ArgumentsVerdict;
  }

  /** All or nothing, for every failure point: a rejected submission yields no id and leaves
      requests, ids, queue and topology as they were; an accepted one adds exactly one request
      and its one event, and the returned id is theirs. */
  lemma SubmitAllOrNothing(oracle: Oracle, s: State, r: Submission)
    ensures
      var out := Submit(oracle, s, r);
      && (out.status == Ok <==> out.id != NO_REQUEST)
      && out.next.snapshot == s.snapshot
      && (out.status != Ok ==>
            out.next.requests == s.requests && out.next.nextId == s.nextId && out.next.queue == s.queue)
      && (out.status == Ok ==>
            && out.id == s.nextId && out.next.nextId != out.id
            && |out.next.requests| == |s.requests| + 1 && s.requests <= out.next.requests
            && out.next.requests[|s.requests|].id == out.id
            && |out.next.queue| == |s.queue| + 1 && s.queue <= out.next.queue
            && out.next.queue[|s.queue|].requestId == out.id)
  {
    SubmitShape(oracle, s, r);
    hide Submit, ChosenTargets;
  }

  /** The clock answered `status` to a sample that the submission takes. */
  ghost predicate ClockSaid(oracle: Oracle, s: State, r: Submission, status: Status) {
    && ArgumentsVerdict(r) == Ok && s.snapshot.Some?
    && (oracle.clock(s.samples).status == status
        || (Stampable(oracle, s, r) && oracle.clock(s.samples + 1).status == status))
  }

  /** Arguments and topology are usable, the clock answers, and the topology is too old. */
  predicate TooOld(oracle: Oracle, s: State, r: Submission) {
    && ArgumentsVerdict(r) == Ok && s.snapshot.Some?
    && GoodSample(oracle.clock(s.samples), s.snapshot.value)
    && oracle.clock(s.samples).time - s.snapshot.value.received > r.options.value.maxAge
  }

  /** Every refusal names its reason, for every state and every environment. Whatever the clock
      answers is passed on as it is; apart from that, STALE means the topology is older than the
      caller allows, UNAVAILABLE that there is no topology or no contact for its slot, EXHAUSTED
      that the topology was usable but a byte count, an allocation, the ids or the event slots
      ran out, and the two argument errors that the arguments are what they say. */
  lemma RefusalsMeanWhatTheySay(oracle: Oracle, s: State, r: Submission)
    ensures
      var status := Submit(oracle, s, r).status;
      && (status == TopologyStale <==> ClockSaid(oracle, s, r, TopologyStale) || TooOld(oracle, s, r))
      && (status == TopologyUnavailable <==>
            || ClockSaid(oracle, s, r, TopologyUnavailable)
            || (ArgumentsVerdict(r) == Ok && s.snapshot.None?)
            || (Admitted(oracle, s, r) && !Contactable(s.snapshot.value)))
      && (status == ResourceExhausted <==>
            || ClockSaid(oracle, s, r, ResourceExhausted)
            || (Admitted(oracle, s, r) && Contactable(s.snapshot.value) && !Resourced(oracle, s, r)))
      && (status == InvalidArgument <==>
            ClockSaid(oracle, s, r, InvalidArgument) || ArgumentsVerdict(r) == InvalidArgument)
      && (status == Unsupported <==> ClockSaid(oracle, s, r, Unsupported) || ArgumentsVerdict(r) == Unsupported)
      && (forall code :: status == Foreign(code) <==> ClockSaid(oracle, s, r, Foreign(code)))
  {
    StatusOfSubmit(oracle, s, r);
    hide Submit, Contactable, Resourced;
  }

  /** Unusable arguments, spelled out, and a missing topology are the only refusals that take
      nothing from the environment: no clock sample and no allocation. */
  lemma RefusedForFree(oracle: Oracle, s: State, r: Submission)
    ensures
      var usable :=
        && r.idOut && r.present && r.transaction != [] && r.options.Some?
        && r.options.value.structSize >= 24 && r.options.value.flags == 0
        && r.options.value.reserved0 == 0 && r.options.value.maxAge > 0 && r.options.value.targetLimit > 0;
      && (ArgumentsVerdict(r) == Ok <==> usable)
      && (ArgumentsVerdict(r) == Unsupported <==>
            && r.idOut && r.present && r.transaction != [] && r.options.Some?
            && r.options.value.structSize >= 24 && r.options.value.flags != 0)
      && ArgumentsVerdict(r) in {Ok, Unsupported, InvalidArgument}
      && (Submit(oracle, s, r).next == s <==> !usable || s.snapshot.None?)
  {
    hide SubmitAdmitted;
    if ArgumentsVerdict(r) == Ok && s.snapshot.Some? {
      var out := Submit(oracle, s, r);
      MoreSamples(oracle, s, s.snapshot.value, r.transaction, r.options.value);
      assert out.next.samples > s.samples;
    }
  }

  lemma MoreSamples(oracle: Oracle, s: State, snapshot: Snapshot, transaction: seq<u8>, options: Options)
    requires transaction != []
    ensures SubmitChecked(oracle, s, snapshot, transaction, options).next.samples > s.samples
  {
    hide Resolve, PrepareSupply, Routes, AdmissionVerdict, StampVerdict;
  }

  // ---------- the second sample ----------

  /** The environment with sample `k` taken at another time. */
  function Delayed(oracle: Oracle, k: nat, time: u64): Oracle {
    oracle.(clock := (n: nat) => if n == k then Reading(Ok, time) else oracle.clock(n))
  }

  /** Freshness is decided by the first sample alone: whatever later time the second one
      reports, the submission is still accepted and its event carries that time. */
  lemma StampIsNotAgeChecked(oracle: Oracle, s: State, r: Submission, later: u64)
    requires Submit(oracle, s, r).status == Ok
    requires s.snapshot.Some? ==> s.snapshot.value.received <= later
    ensures
      var out := Submit(Delayed(oracle, s.samples + 1, later), s, r);
      out.status == Ok && out.next.queue == s.queue + [AcceptedEvent(s.nextId, later)]
  {
    var slow := Delayed(oracle, s.samples + 1, later);
    SubmitAcceptsExactlyWhen(oracle, s, r);
    SubmitAcceptsExactlyWhen(slow, s, r);
    SubmitShape(slow, s, r);
    hide Submit, Matches, AllMatches, RequestFrom, ArgumentsVerdict;
  }

  /** The event of a submission accepted at `later` is stamped after the caller's maximum age. */
  ghost predicate AcceptedTooLate(oracle: Oracle, s: State, r: Submission, later: u64)
    requires s.snapshot.Some? && r.options.Some?
  {
    var out := Submit(Delayed(oracle, s.samples + 1, later), s, r);
    && out.status == Ok && out.next.queue == s.queue + [AcceptedEvent(s.nextId, later)]
    && later > s.snapshot.value.received + r.options.value.maxAge
  }

  /** An accepted submission could have been stamped past its maximum age, by nothing more than
      a later second sample, exactly when the clock has times past that age at all. */
  lemma LateStampPossibleExactlyWhen(oracle: Oracle, s: State, r: Submission)
    requires Submit(oracle, s, r).status == Ok
    ensures s.snapshot.Some? && r.options.Some?
    ensures (exists later: u64 :: AcceptedTooLate(oracle, s, r, later)) <==>
      s.snapshot.value.received + r.options.value.maxAge < U64_MAX
  {
    SubmitShape(oracle, s, r);
    hide Submit, SubmitChecked;
    if s.snapshot.value.received + r.options.value.maxAge < U64_MAX {
      StampIsNotAgeChecked(oracle, s, r, U64_MAX);
      assert AcceptedTooLate(oracle, s, r, U64_MAX);
    }
  }

  /** A clock sample that reports INTERNAL_ERROR or precedes the topology's receipt. */
  predicate Broken(sample: Reading, received: u64) {
    sample.status == InternalError || (sample.status == Ok && sample.time < received)
  }

  /** INTERNAL_ERROR never stems from the library's own bookkeeping: it is returned exactly when
      a clock sample that the submission takes reported it or went back before the receipt. */
  lemma InternalErrorComesFromClock(oracle: Oracle, s: State, r: Submission)
    ensures Submit(oracle, s, r).status == InternalError <==>
      && ArgumentsVerdict(r) == Ok && s.snapshot.Some?
      && (Broken(oracle.clock(s.samples), s.snapshot.value.received)
          || (Stampable(oracle, s, r) && Broken(oracle.clock(s.samples + 1), s.snapshot.value.received)))
  {
    StatusOfSubmit(oracle, s, r);
    hide Submit, Contactable, Resourced;
  }

  // ---------- a clock that works ----------

  /** Never fails and never goes back. */
  ghost predicate Steady(oracle: Oracle) {
    && (forall k: nat :: oracle.clock(k).status == Ok)
    && forall j: nat, k: nat :: j <= k ==> oracle.clock(j).time <= oracle.clock(k).time
  }

  /** Every recorded time was sampled earlier, and stamps are in order. */
  ghost predicate Timely(oracle: Oracle, h: History) {
    && (forall i, k: nat :: 0 <= i < |h.installs| && h.state.samples <= k ==> h.installs[i].received <= oracle.clock(k).time)
    && (forall i, k: nat :: 0 <= i < |h.admissions| && h.state.samples <= k ==> h.admissions[i].acceptedAt <= oracle.clock(k).time)
    && (forall i, j :: 0 <= i <= j < |h.admissions| ==> h.admissions[i].acceptedAt <= h.admissions[j].acceptedAt)
  }

  lemma StepKeepsTimely(oracle: Oracle, h: History, op: Op)
    requires Steady(oracle) && Timely(oracle, h)
    ensures Timely(oracle, Step(oracle, h, op))
  {
    hide Install, Submit, Commit;
    match op
    case InstallOp(t) => InstallShape(oracle, h.state, t);
    case RefreshOp(o) => if o.topology.Some? { InstallShape(oracle, h.state, o.topology.value); }
    case SubmitOp(r) => SubmitShape(oracle, h.state, r);
    case PollOp(p) =>
  }

  lemma {:induction false} TraceKeepsTimely(oracle: Oracle, trace: seq<History>, ops: seq<Op>, k: nat)
    requires Steady(oracle) && IsTrace(oracle, trace, ops) && k <= |ops| && Timely(oracle, trace[0])
    ensures Timely(oracle, trace[k])
  {
    hide Timely, Steady, Step;
    if k > 0 {
      TraceKeepsTimely(oracle, trace, ops, k - 1);
      assert trace[k] == Step(oracle, trace[k - 1], ops[k - 1]);
      StepKeepsTimely(oracle, trace[k - 1], ops[k - 1]);
    }
  }

  lemma ReachableIsTimely(oracle: Oracle, h: History)
    requires Steady(oracle) && Reachable(oracle, h)
    ensures Timely(oracle, h)
  {
    var allocations: nat, samples: nat :| Leads(oracle, Initial(allocations, samples), h);
    var trace, ops :| IsTrace(oracle, trace, ops) && trace[0] == Initial(allocations, samples) && trace[|ops|] == h;
    TraceKeepsTimely(oracle, trace, ops, |ops|);
  }

  /** With a steady clock, events leave in time order. */
  lemma SteadyClockOrdersEvents(oracle: Oracle, h: History)
    requires Reachable(oracle, h)
    requires Steady(oracle)
    ensures
      var events := h.drained + h.state.queue;
      forall i, j :: 0 <= i <= j < |events| ==> events[i].time <= events[j].time
  {
    ReachableIsSound(oracle, h);
    ReachableIsTimely(oracle, h);
    var events := h.drained + h.state.queue;
    forall i, j | 0 <= i <= j < |events| ensures events[i].time <= events[j].time {
      EventsOfAt(h.admissions, i);
      EventsOfAt(h.admissions, j);
    }
  }

  /** With a steady clock, no submission in any reachable state reports INTERNAL_ERROR. */
  lemma SteadyClockNeverInternalError(oracle: Oracle, h: History, r: Submission)
    requires Reachable(oracle, h)
    requires Steady(oracle)
    ensures Submit(oracle, h.state, r).status != InternalError
  {
    ReachableIsSound(oracle, h);
    ReachableIsTimely(oracle, h);
    assert forall k: nat :: h.state.snapshot.Some? && h.state.samples <= k ==>
      !Broken(oracle.clock(k), h.state.snapshot.value.received);
    if Submit(oracle, h.state, r).status == InternalError {
      InternalErrorComesFromClock(oracle, h.state, r);
    }
  }

  // ---------- one installation ----------

  /** The number of non-empty tables: what an installation allocates. */
  function Tables(t: TopologyInput): nat {
    (if t.validators.count == 0 then 0 else 1) + (if t.endpoints.count == 0 then 0 else 1)
    + (if t.associations.count == 0 then 0 else 1) + (if t.leaders.count == 0 then 0 else 1)
  }

  ghost predicate AllGranted(oracle: Oracle, position: nat, count: nat) {
    forall k :: position <= k < position + count ==> oracle.grants(k)
  }

  lemma GrantedStep(oracle: Oracle, position: nat, count: nat)
    ensures AllGranted(oracle, position, count + 1) <==>
      AllGranted(oracle, position, count) && oracle.grants(position + count)
  {
  }

  /** One more table after `done` granted callocs, if all before it were granted. */
  lemma TableGranted(oracle: Oracle, position: nat, done: nat, supply: Supply, count: u32, size: nat)
    requires 0 < size <= U32_MAX
    requires supply.granted <==> AllGranted(oracle, position, done)
    requires supply.granted ==> supply.position == position + done
    ensures
      var next, more := Then(oracle, supply, Demand(count, size)), if count == 0 then done else done + 1;
      && (next.granted <==> AllGranted(oracle, position, more))
      && (next.granted ==> next.position == position + more)
  {
    OverflowIsExact(Demand(count, size));
    ProductBound(count, size, U32_MAX, U32_MAX);
    GrantedStep(oracle, position, done);
  }

  /** A build succeeds exactly when as many consecutive callocs are granted as there are
      non-empty tables: no table's byte count can overflow. */
  lemma BuildGranted(oracle: Oracle, position: nat, t: TopologyInput)
    ensures
      var supply := BuildSupply(oracle, position, t.validators.count, t.endpoints.count, t.associations.count,
                                t.leaders.count);
      supply.granted <==> AllGranted(oracle, position, Tables(t))
  {
    var none := Supply(true, position);
    var v := Then(oracle, none, Demand(t.validators.count, VALIDATOR_SIZE));
    var e := Then(oracle, v, Demand(t.endpoints.count, ENDPOINT_SIZE));
    var a := Then(oracle, e, Demand(t.associations.count, ASSOCIATION_SIZE));
    var n := if t.validators.count == 0 then 0 else 1;
    var m := if t.endpoints.count == 0 then n else n + 1;
    var o := if t.associations.count == 0 then m else m + 1;
    TableGranted(oracle, position, 0, none, t.validators.count, VALIDATOR_SIZE);
    TableGranted(oracle, position, n, v, t.endpoints.count, ENDPOINT_SIZE);
    TableGranted(oracle, position, m, e, t.associations.count, ASSOCIATION_SIZE);
    TableGranted(oracle, position, o, a, t.leaders.count, LEADER_SIZE);
    hide Serve, AllGranted;
  }

  ghost predicate Newer(s: State, t: TopologyInput) {
    s.snapshot.Some? ==> s.snapshot.value.generation < t.generation
  }

  /** The status of every installation in every environment: OK, STALE and EXHAUSTED each
      exactly under its own condition, a clock failure passed on as it is, and for malformed
      topologies one of the two validation errors, UNSUPPORTED for the unsupported ones alone. */
  lemma StatusOfInstall(oracle: Oracle, s: State, t: TopologyInput)
    ensures
      var status, sample := Install(oracle, s, t).status, oracle.clock(s.samples).status;
      var built := WellFormed(t) && Newer(s, t) && AllGranted(oracle, s.allocations, Tables(t));
      && (status == Ok <==> built && sample == Ok)
      && (status == TopologyStale <==> (WellFormed(t) && !Newer(s, t)) || (built && sample == TopologyStale))
      && (status == ResourceExhausted <==>
            || (WellFormed(t) && Newer(s, t) && !AllGranted(oracle, s.allocations, Tables(t)))
            || (built && sample == ResourceExhausted))
      && (status == Unsupported <==> UnsupportedTopology(t) || (built && sample == Unsupported))
      && (status == InvalidArgument <==>
            (!WellFormed(t) && !UnsupportedTopology(t)) || (built && sample == InvalidArgument))
      && (built ==> status == sample)
  {
    ValidateAccepts(t);
    ValidateVerdicts(t);
    BuildGranted(oracle, s.allocations, t);
    ValidateUnsupported(t);
    hide Validate, WellFormed, UnsupportedTopology, BuildSupply, AllGranted, SnapshotOf;
  }

  /** All or nothing: a rejected installation leaves the installed snapshot, its receipt time
      and everything else as it was; an accepted one is newer and means its source. */
  lemma InstallAllOrNothing(oracle: Oracle, s: State, t: TopologyInput)
    ensures
      var out := Install(oracle, s, t);
      && out.next.requests == s.requests && out.next.nextId == s.nextId && out.next.queue == s.queue
      && (out.status == Ok <==>
            && WellFormed(t) && Newer(s, t) && AllGranted(oracle, s.allocations, Tables(t))
            && oracle.clock(s.samples).status == Ok)
      && (out.status == Ok ==>
            && out.next.snapshot == Some(SnapshotOf(t, oracle.clock(s.samples).time)))
      && (out.status != Ok ==> out.next.snapshot == s.snapshot)
  {
    StatusOfInstall(oracle, s, t);
    InstallShape(oracle, s, t);
    hide Install, WellFormed, AllGranted, SnapshotOf, Coherent;
  }

  // ---------- one refresh ----------

  /** A provider descriptor whose acquire callback is called. */
  predicate ProviderUsable(o: Offer) {
    o.addressable && o.structSize >= 32 && o.flags == 0 && o.hasAcquire
  }

  /** A refresh is the installation of what a usable provider offers, status and state alike, and
      otherwise changes nothing and says why: the provider's own failure, INTERNAL_ERROR when it
      offers nothing, UNSUPPORTED for flags, INVALID_ARGUMENT for any other descriptor. */
  lemma StatusOfRefresh(oracle: Oracle, s: State, o: Offer)
    ensures Refresh(oracle, s, o) ==
      if ProviderUsable(o) then
        if o.acquired != Ok then Installed(o.acquired, s)
        else if o.topology.None? then Installed(InternalError, s)
        else Install(oracle, s, o.topology.value)
      else if o.addressable && o.structSize >= 32 && o.flags != 0 then Installed(Unsupported, s)
      else Installed(InvalidArgument, s)
  {
    hide Install;
  }

  /** So a refresh installs exactly when the provider offers a well-formed and newer topology, the
      callocs for it are granted and the clock answers; nothing else of the client ever changes. */
  lemma RefreshAllOrNothing(oracle: Oracle, s: State, o: Offer)
    ensures
      var out := Refresh(oracle, s, o);
      && out.next.requests == s.requests && out.next.nextId == s.nextId && out.next.queue == s.queue
      && (out.next.snapshot != s.snapshot ==>
            && ProviderUsable(o) && o.acquired == Ok && o.topology.Some? && out.status == Ok
            && out.next.snapshot == Some(SnapshotOf(o.topology.value, oracle.clock(s.samples).time)))
      && (out.status == Ok <==>
            && ProviderUsable(o) && o.acquired == Ok && o.topology.Some?
            && WellFormed(o.topology.value) && Newer(s, o.topology.value)
            && AllGranted(oracle, s.allocations, Tables(o.topology.value)) && oracle.clock(s.samples).status == Ok)
  {
    hide Install, WellFormed, AllGranted, SnapshotOf;
    StatusOfRefresh(oracle, s, o);
    if o.topology.Some? {
      InstallAllOrNothing(oracle, s, o.topology.value);
    }
    hide Refresh;
  }

  // ---------- what the history records ----------

  /** The record kept of an acceptance is of this very call: its snapshot, its arguments and the
      two clock samples it took. */
  lemma SubmitRecords(oracle: Oracle, h: History, r: Submission)
    requires Reachable(oracle, h) && Submit(oracle, h.state, r).status == Ok
    ensures
      var next := Step(oracle, h, SubmitOp(r));
      && h.installs != [] && h.state.snapshot == Some(h.installs[|h.installs| - 1]) && r.options.Some?
      && next.admissions == h.admissions + [Admission(
           |h.installs| - 1, r.transaction, r.options.value.maxAge, r.options.value.targetLimit,
           oracle.clock(h.state.samples).time, oracle.clock(h.state.samples + 1).time)]
  {
    hide Reachable;
    ReachableIsSound(oracle, h);
    SubmitShape(oracle, h.state, r);
    hide Submit, Coherent;
  }

  /** What the outcome of a call tells its caller, in terms of arguments, state and environment. */
  lemma OutcomeMeans(oracle: Oracle, s: State, op: Op)
    ensures
      var out := OutcomeOf(oracle, s, op);
      match op
      case InstallOp(t) => out.status == Install(oracle, s, t).status && out.id == 0 && out.events == []
      case RefreshOp(o) => out.status == Refresh(oracle, s, o).status && out.id == 0 && out.events == []
      case SubmitOp(r) =>
        && (out.status == Ok <==> Acceptable(oracle, s, r)) && out.status == Submit(oracle, s, r).status
        && out.id == (if Acceptable(oracle, s, r) then s.nextId else 0) && out.events == []
      case PollOp(p) =>
        && out.status == (if Pollable(p) then Ok else InvalidArgument) && out.id == 0
        && out.events == Poll(s, p).events
  {
    hide Install, Refresh, Submit, Poll, Acceptable;
    match op
    case InstallOp(t) =>
    case RefreshOp(o) =>
    case SubmitOp(r) =>
      SubmitAcceptsExactlyWhen(oracle, s, r);
      SubmitAllOrNothing(oracle, s, r);
    case PollOp(p) => StatusOfPoll(s, p);
  }
}
