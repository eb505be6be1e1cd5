/** Whole runs of the client: every sequence of operations, against every oracle. */
module Runs {
  import opened Machine
  import opened Records
  import opened Topology
  import opened Ownership
  import opened Resolution
  import opened Routing
  import opened Events
  import opened Delivery

  datatype Op =
    | InstallOp(topology: TopologyInput)
    | RefreshOp(offer: Offer)
    | SubmitOp(submission: Submission)
    | PollOp(request: PollRequest)

  /** How one request came to be accepted: against which installed snapshot, with which
      arguments, admitted and stamped by which clock samples. */
  datatype Admission = Admission(
    era: nat, transaction: seq<u8>, maxAge: u64, limit: nat, admittedAt: u64, acceptedAt: u64)

  /** The client's state with all events handed out so far, all snapshots ever installed, and
      one admission per accepted request. */
  datatype History = History(state: State, drained: seq<Event>, installs: seq<Snapshot>, admissions: seq<Admission>)

  function Initial(allocations: nat, samples: nat): History {
    History(State(None, [], 1, [], allocations, samples), [], [], [])
  }

  function AfterInstall(h: History, i: Installed): History {
    if i.status == Ok && i.next.snapshot.Some? then
      h.(state := i.next, installs := h.installs + [i.next.snapshot.value])
    else h.(state := i.next)
  }

  function AfterSubmit(oracle: Oracle, h: History, r: Submission, s: Submitted): History {
    if s.status == Ok && r.options.Some? && h.installs != [] then
      h.(state := s.next,
         admissions := h.admissions +
           [Admission(|h.installs| - 1, r.transaction, r.options.value.maxAge, r.options.value.targetLimit,
                      oracle.clock(h.state.samples).time, oracle.clock(h.state.samples + 1).time)])
    else h.(state := s.next)
  }

  function AfterPoll(h: History, p: Polled): History {
    h.(state := p.next, drained := h.drained + p.events)
  }

  function Step(oracle: Oracle, h: History, op: Op): History {
    match op
    case InstallOp(t) => AfterInstall(h, Install(oracle, h.state, t))
    case RefreshOp(o) => AfterInstall(h, Refresh(oracle, h.state, o))
    case SubmitOp(r) => AfterSubmit(oracle, h, r, Submit(oracle, h.state, r))
    case PollOp(p) => AfterPoll(h, Poll(h.state, p))
  }

  function Run(oracle: Oracle, h: History, ops: seq<Op>): History {
    if ops == [] then h
    else Step(oracle, Run(oracle, h, ops[..|ops| - 1]), ops[|ops| - 1])
  }

  /** What the caller of one operation gets back. */
  datatype Outcome = Outcome(status: Status, id: u64, events: seq<Event>)

  function OutcomeOf(oracle: Oracle, s: State, op: Op): Outcome {
    match op
    case InstallOp(t) => Outcome(Install(oracle, s, t).status, NO_REQUEST, [])
    case RefreshOp(o) => Outcome(Refresh(oracle, s, o).status, NO_REQUEST, [])
    case SubmitOp(r) => var out := Submit(oracle, s, r); Outcome(out.status, out.id, [])
    case PollOp(p) => var out := Poll(s, p); Outcome(out.status, NO_REQUEST, out.events)
  }

  function Outcomes(oracle: Oracle, h: History, ops: seq<Op>): (r: seq<Outcome>)
    ensures |r| == |ops|
  {
    if ops == [] then []
    else
      var n := |ops| - 1;
      Outcomes(oracle, h, ops[..n]) + [OutcomeOf(oracle, Run(oracle, h, ops[..n]).state, ops[n])]
  }

  /** All events handed to the caller, in order. */
  function Handed(outcomes: seq<Outcome>): seq<Event> {
    if outcomes == [] then []
    else Handed(outcomes[..|outcomes| - 1]) + outcomes[|outcomes| - 1].events
  }

  /** All request ids given to the caller, in order. */
  function Given(outcomes: seq<Outcome>): seq<u64> {
    if outcomes == [] then []
    else
      var n := |outcomes| - 1;
      Given(outcomes[..n]) + if outcomes[n].id == NO_REQUEST then [] else [outcomes[n].id]
  }

  function Ids(requests: seq<Accepted>): (r: seq<u64>)
    ensures |r| == |requests|
    ensures forall i :: 0 <= i < |r| ==> r[i] == requests[i].id
  {
    seq(|requests|, i requires 0 <= i < |requests| => requests[i].id)
  }

  /** `trace` lists the histories before, between and after the operations. */
  ghost predicate IsTrace(oracle: Oracle, trace: seq<History>, ops: seq<Op>) {
    && |trace| == |ops| + 1
    && forall i {:trigger ops[i]} :: 0 <= i < |ops| ==> trace[i + 1] == Step(oracle, trace[i], ops[i])
  }

  /** Some sequence of operations takes `h` to `later`. */
  ghost predicate Leads(oracle: Oracle, h: History, later: History) {
    exists trace, ops :: IsTrace(oracle, trace, ops) && trace[0] == h && trace[|ops|] == later
  }

  /** A history of a client created at any point of the oracle's answers. */
  ghost predicate Reachable(oracle: Oracle, h: History) {
    exists allocations: nat, samples: nat :: Leads(oracle, Initial(allocations, samples), h)
  }

  /** The recursive run of a given operation sequence leads where its trace leads. */
  lemma {:induction false} RunLeads(oracle: Oracle, h: History, ops: seq<Op>) returns (trace: seq<History>)
    ensures IsTrace(oracle, trace, ops) && trace[0] == h && trace[|ops|] == Run(oracle, h, ops)
    ensures Leads(oracle, h, Run(oracle, h, ops))
  {
    hide Step;
    if ops == [] {
      trace := [h];
    } else {
      var n := |ops| - 1;
      var shorter := RunLeads(oracle, h, ops[..n]);
      trace := shorter + [Run(oracle, h, ops)];
      forall i | 0 <= i < |ops| ensures trace[i + 1] == Step(oracle, trace[i], ops[i]) {
        assert i < n ==> ops[..n][i] == ops[i];
      }
    }
    assert IsTrace(oracle, trace, ops);
  }

  lemma RunIsReachable(oracle: Oracle, allocations: nat, samples: nat, ops: seq<Op>)
    ensures Reachable(oracle, Run(oracle, Initial(allocations, samples), ops))
  {
    var trace := RunLeads(oracle, Initial(allocations, samples), ops);
  }

  // ---------- what every run keeps ----------

  ghost predicate SnapshotsSound(h: History) {
    && (forall i :: 0 <= i < |h.installs| ==> Coherent(h.installs[i]))
    && (forall i, j :: 0 <= i < j < |h.installs| ==> h.installs[i].generation < h.installs[j].generation)
    && h.state.snapshot == if h.installs == [] then None else Some(h.installs[|h.installs| - 1])
  }

  /** Request `i` is exactly what its admission says, planned on the snapshot of its era, and
      that snapshot was fresh when it was admitted. */
  ghost predicate RequestSound(h: History, i: nat)
    requires i < |h.admissions| == |h.state.requests| <= U64_MAX
  {
    var a := h.admissions[i];
    && a.era < |h.installs|
    && h.state.requests[i] == RequestFrom(i + 1, h.installs[a.era], a.transaction, a.limit)
    && a.transaction != [] && ChosenTargets(h.installs[a.era], a.limit) != []
    && h.installs[a.era].received <= a.admittedAt
    && a.admittedAt - h.installs[a.era].received <= a.maxAge
    && h.installs[a.era].received <= a.acceptedAt
  }

  ghost predicate RequestsSound(h: History) {
    && |h.admissions| == |h.state.requests| <= U64_MAX
    && (forall i :: 0 <= i < |h.admissions| ==> RequestSound(h, i))
    && (forall i, j :: 0 <= i < j < |h.admissions| ==> h.admissions[i].era <= h.admissions[j].era)
    && h.state.nextId == if |h.state.requests| == U64_MAX then NO_REQUEST else |h.state.requests| + 1
  }

  /** Drained and queued events together are the accepted events, one per request, in order. */
  ghost predicate EventsSound(h: History)
    requires |h.admissions| <= U64_MAX
  {
    && |h.state.queue| <= QUEUE_CAPACITY
    && h.drained + h.state.queue == EventsOf(h.admissions)
  }

  function EventsOf(admissions: seq<Admission>): (r: seq<Event>)
    requires |admissions| <= U64_MAX
    ensures |r| == |admissions|
  {
    if admissions == [] then []
    else
      var n := |admissions| - 1;
      EventsOf(admissions[..n]) + [AcceptedEvent(n + 1, admissions[n].acceptedAt)]
  }

  ghost predicate Sound(h: History) {
    SnapshotsSound(h) && RequestsSound(h) && EventsSound(h)
  }

  /** Requests stay sound when snapshots are only added and requests do not change. */
  lemma RequestsStaySound(h: History, next: History)
    requires RequestsSound(h) && h.installs <= next.installs && next.admissions == h.admissions
    requires next.state.requests == h.state.requests && next.state.nextId == h.state.nextId
    ensures RequestsSound(next)
  {
    hide RequestFrom, ChosenTargets;
    forall k | 0 <= k < |next.admissions| ensures RequestSound(next, k) {
      assert RequestSound(h, k);
    }
  }

  /** What an installation can do to a state. */
  lemma InstallShape(oracle: Oracle, s: State, t: TopologyInput)
    ensures
      var i := Install(oracle, s, t);
      && i.next.requests == s.requests && i.next.nextId == s.nextId && i.next.queue == s.queue
      && i.next.samples >= s.samples && (i.status == Ok ==> i.next.samples == s.samples + 1)
      && (i.status != Ok ==> i.next.snapshot == s.snapshot)
      && (i.status == Ok ==>
            && i.next.snapshot == Some(SnapshotOf(t, oracle.clock(s.samples).time))
            && Coherent(i.next.snapshot.value)
            && (s.snapshot.Some? ==> s.snapshot.value.generation < i.next.snapshot.value.generation))
  {
    hide Validate, BuildSupply, Coherent;
    if Install(oracle, s, t).status == Ok {
      ValidatedIsCoherent(t, oracle.clock(s.samples).time);
    }
  }

  lemma InstallKeepsSound(oracle: Oracle, h: History, t: TopologyInput)
    requires Sound(h)
    ensures Sound(AfterInstall(h, Install(oracle, h.state, t)))
  {
    InstallShape(oracle, h.state, t);
    hide Install, Coherent, SnapshotOf, RequestsSound;
    RequestsStaySound(h, AfterInstall(h, Install(oracle, h.state, t)));
  }

  lemma RefreshKeepsSound(oracle: Oracle, h: History, o: Offer)
    requires Sound(h)
    ensures Sound(AfterInstall(h, Refresh(oracle, h.state, o)))
  {
    hide Install, Coherent, RequestsSound, ProviderVerdict;
    if o.topology.Some? {
      InstallKeepsSound(oracle, h, o.topology.value);
    }
    RequestsStaySound(h, h);
  }

  lemma PollKeepsSound(h: History, p: PollRequest)
    requires Sound(h)
    ensures Sound(AfterPoll(h, Poll(h.state, p)))
  {
    hide PollStatus, Coherent, RequestsSound, EventsOf;
    var r := Poll(h.state, p);
    var next := AfterPoll(h, r);
    assert r.events + r.next.queue == h.state.queue;
    assert next.drained + next.state.queue == h.drained + h.state.queue;
    RequestsStaySound(h, next);
  }

  /** What a submission can do to a state: nothing but take answers from the oracle, or accept
      exactly one request for reasons that hold. */
  lemma SubmitShape(oracle: Oracle, s: State, r: Submission)
    ensures
      var out := Submit(oracle, s, r);
      && out.next.samples >= s.samples && (out.status == Ok ==> out.next.samples == s.samples + 2)
      && (out.status != Ok ==>
            out.id == NO_REQUEST && out.next == s.(allocations := out.next.allocations, samples := out.next.samples))
      && (out.status == Ok ==>
            && ArgumentsVerdict(r) == Ok && s.snapshot.Some? && s.nextId != NO_REQUEST && |s.queue| < QUEUE_CAPACITY
            && AdmissionVerdict(oracle.clock(s.samples), s.snapshot.value.received, r.options.value.maxAge) == Ok
            && StampVerdict(oracle.clock(s.samples + 1), s.snapshot.value.received) == Ok
            && Resolve(s.snapshot.value, s.snapshot.value.currentSlot) != []
            && out.id == s.nextId
            && out.next == Commit(s, s.snapshot.value, r.transaction, r.options.value.targetLimit,
                                  oracle.clock(s.samples + 1).time)
                 .(allocations := out.next.allocations, samples := out.next.samples))
  {
    hide PrepareSupply, Resolve, Routes, ChosenTargets, AdmissionVerdict, StampVerdict;
  }

  /** One operation tells its caller exactly what it did to the history. */
  lemma OutcomeTellsStep(oracle: Oracle, h: History, op: Op)
    ensures
      var next, out := Step(oracle, h, op), OutcomeOf(oracle, h.state, op);
      && next.drained == h.drained + out.events
      && Ids(next.state.requests) == Ids(h.state.requests) + if out.id == NO_REQUEST then [] else [out.id]
  {
    hide Install, Submit;
    match op
    case InstallOp(t) => InstallShape(oracle, h.state, t);
    case RefreshOp(o) => if o.topology.Some? { InstallShape(oracle, h.state, o.topology.value); }
    case SubmitOp(r) => SubmitShape(oracle, h.state, r);
    case PollOp(p) =>
  }

  /** Put together, the caller's view of a run is what the run drained and accepted. */
  lemma {:induction false} OutcomesTellRun(oracle: Oracle, h: History, ops: seq<Op>)
    ensures
      var end, outs := Run(oracle, h, ops), Outcomes(oracle, h, ops);
      && end.drained == h.drained + Handed(outs)
      && Ids(end.state.requests) == Ids(h.state.requests) + Given(outs)
  {
    hide Step, OutcomeOf, Ids;
    if ops != [] {
      var n := |ops| - 1;
      OutcomesTellRun(oracle, h, ops[..n]);
      OutcomeTellsStep(oracle, Run(oracle, h, ops[..n]), ops[n]);
      var outs := Outcomes(oracle, h, ops);
      assert outs[..n] == Outcomes(oracle, h, ops[..n]);
    }
  }

  /** A non-empty resolution always yields at least one target. */
  lemma SomeTargetChosen(s: Snapshot, limit: nat)
    requires Resolve(s, s.currentSlot) != [] && limit > 0
    ensures ChosenTargets(s, limit) != []
  {
    UniqueCountIsCardinality(Resolve(s, s.currentSlot));
  }

  /** Accepting one more request, planned on the current snapshot. */
  lemma AcceptKeepsRequests(h: History, next: History, a: Admission)
    requires SnapshotsSound(h) && RequestsSound(h) && h.installs != [] && h.state.nextId != NO_REQUEST
    requires next.installs == h.installs && next.admissions == h.admissions + [a]
    requires a.era == |h.installs| - 1 && a.transaction != []
    requires
      var s := h.installs[a.era];
      && ChosenTargets(s, a.limit) != []
      && s.received <= a.admittedAt && a.admittedAt - s.received <= a.maxAge && s.received <= a.acceptedAt
      && next.state.requests == h.state.requests + [RequestFrom(h.state.nextId, s, a.transaction, a.limit)]
    requires next.state.nextId == NextId(h.state.nextId)
    ensures RequestsSound(next)
  {
    hide ChosenTargets, RequestFrom, Coherent;
    var n := |h.admissions|;
    assert h.state.nextId == n + 1;
    forall k | 0 <= k < |next.admissions| ensures RequestSound(next, k) {
      if k < n {
        assert RequestSound(h, k);
      }
    }
    forall i, j | 0 <= i < j < |next.admissions| ensures next.admissions[i].era <= next.admissions[j].era {
      assert RequestSound(next, i);
    }
  }

  lemma SubmitKeepsSound(oracle: Oracle, h: History, r: Submission)
    requires Sound(h)
    ensures Sound(AfterSubmit(oracle, h, r, Submit(oracle, h.state, r)))
  {
    SubmitShape(oracle, h.state, r);
    var out := Submit(oracle, h.state, r);
    var next := AfterSubmit(oracle, h, r, out);
    hide Submit, Coherent, Resolve, ChosenTargets, RequestsSound;
    if out.status == Ok {
      assert h.installs != [] && r.options.Some?;
      var a := next.admissions[|h.admissions|];
      SomeTargetChosen(h.state.snapshot.value, a.limit);
      AcceptKeepsRequests(h, next, a);
      NextIdCounts(h);
      assert next.admissions[..|h.admissions|] == h.admissions;
      assert next.drained + next.state.queue
        == (h.drained + h.state.queue) + [AcceptedEvent(h.state.nextId, a.acceptedAt)];
    } else {
      RequestsStaySound(h, next);
    }
  }

  lemma NextIdCounts(h: History)
    requires RequestsSound(h)
    ensures |h.admissions| == |h.state.requests| <= U64_MAX
    ensures h.state.nextId != NO_REQUEST ==> h.state.nextId == |h.admissions| + 1
  {
  }

  lemma StepKeepsSound(oracle: Oracle, h: History, op: Op)
    requires Sound(h)
    ensures Sound(Step(oracle, h, op))
  {
    hide Sound, Install, Refresh, Submit, Poll;
    match op
    case InstallOp(t) => InstallKeepsSound(oracle, h, t);
    case RefreshOp(o) => RefreshKeepsSound(oracle, h, o);
    case SubmitOp(r) => SubmitKeepsSound(oracle, h, r);
    case PollOp(p) => PollKeepsSound(h, p);
  }

  lemma {:induction false} TraceKeepsSound(oracle: Oracle, trace: seq<History>, ops: seq<Op>, k: nat)
    requires IsTrace(oracle, trace, ops) && k <= |ops| && Sound(trace[0])
    ensures Sound(trace[k])
  {
    hide Sound, Step;
    if k > 0 {
      TraceKeepsSound(oracle, trace, ops, k - 1);
      assert trace[k] == Step(oracle, trace[k - 1], ops[k - 1]);
      StepKeepsSound(oracle, trace[k - 1], ops[k - 1]);
    }
  }

  /** Every reachable history is sound. */
  lemma ReachableIsSound(oracle: Oracle, h: History)
    requires Reachable(oracle, h)
    ensures Sound(h)
  {
    var allocations: nat, samples: nat :| Leads(oracle, Initial(allocations, samples), h);
    var trace, ops :| IsTrace(oracle, trace, ops) && trace[0] == Initial(allocations, samples) && trace[|ops|] == h;
    TraceKeepsSound(oracle, trace, ops, |ops|);
  }
}
