/** Concrete runs: an installed topology, an accepted request and a stamp past the maximum age
    are all within reach of an honest caller. */
module Witness {
  import opened Machine
  import opened Bytes
  import opened Records
  import opened Layout
  import opened Topology
  import opened Resolution
  import opened Delivery
  import opened Runs
  import opened Guarantees
  import opened Execution

  // ---------- one record per table ----------

  /** Identity 7. */
  function ValidatorBytes(): (b: seq<u8>)
    ensures |b| == VALIDATOR_SIZE
  {
    Le(VALIDATOR_SIZE, 4) + Le(0, 4) + Le(7, 32) + Le(0, 8)
  }

  function Localhost(): (b: seq<u8>)
    ensures |b| == 16
  {
    [127, 0, 0, 1] + Le(0, 12)
  }

  /** A QUIC TPU at 127.0.0.1, port 8001. */
  function EndpointBytes(): (b: seq<u8>)
    ensures |b| == ENDPOINT_SIZE
  {
    Le(ENDPOINT_SIZE, 4) + [ADDRESS_IPV4, TRANSPORT_QUIC, ROLE_TPU, 0] + Le(8001, 2) + Le(0, 2) + Localhost() + Le(0, 4)
  }

  /** Validator 0 at endpoint 0. */
  function AssociationBytes(): (b: seq<u8>)
    ensures |b| == ASSOCIATION_SIZE
  {
    Le(ASSOCIATION_SIZE, 4) + Le(0, 4) + Le(0, 4) + Le(0, 4)
  }

  /** Validator 0 leads slot 7. */
  function LeaderBytes(): (b: seq<u8>)
    ensures |b| == LEADER_SIZE
  {
    Le(LEADER_SIZE, 4) + Le(0, 4) + Le(7, 8) + Le(7, 8) + Le(0, 8)
  }

  function OneRecord(bytes: seq<u8>): Strided
    requires |bytes| <= U32_MAX
  {
    Strided(true, true, bytes, 1, |bytes|)
  }

  /** Generation 1 at slot 7: one validator with one endpoint, leading that slot. */
  function SmallTopology(): TopologyInput {
    TopologyInput(true, TOPOLOGY_SIZE, 0, 1, 7, OneRecord(ValidatorBytes()), OneRecord(EndpointBytes()),
                  OneRecord(AssociationBytes()), OneRecord(LeaderBytes()))
  }

  lemma {:induction false} LeZero(width: nat)
    ensures AllZero(Le(0, width))
  {
    if width > 0 {
      LeZero(width - 1);
    }
  }

  lemma ValidatorDecodes()
    ensures DecodeValidator(ValidatorBytes()) == Validator(VALIDATOR_SIZE, 0, Le(7, 32), Le(0, 8))
  {
    hide Le, DecodeValidator;
    ValidatorLayout(VALIDATOR_SIZE, 0, Le(7, 32), Le(0, 8));
  }

  lemma EndpointDecodes()
    ensures DecodeEndpoint(EndpointBytes())
      == Endpoint(ENDPOINT_SIZE, ADDRESS_IPV4, TRANSPORT_QUIC, ROLE_TPU, 0, 8001, 0, Localhost(), Le(0, 4))
  {
    hide Le, Localhost, DecodeEndpoint;
    EndpointLayout(ENDPOINT_SIZE, ADDRESS_IPV4, TRANSPORT_QUIC, ROLE_TPU, 0, 8001, 0, Localhost(), Le(0, 4));
  }

  lemma AssociationDecodes()
    ensures DecodeAssociation(AssociationBytes()) == Association(ASSOCIATION_SIZE, 0, 0, 0)
  {
    hide Le, DecodeAssociation;
    AssociationLayout(ASSOCIATION_SIZE, 0, 0, 0);
  }

  lemma LeaderDecodes()
    ensures DecodeLeader(LeaderBytes()) == Leader(LEADER_SIZE, 0, 7, 7, 0)
  {
    hide Le, DecodeLeader;
    LeaderLayout(LEADER_SIZE, 0, 7, 7, 0);
  }

  lemma OnlySlice(bytes: seq<u8>)
    requires |bytes| <= U32_MAX
    ensures Slice(OneRecord(bytes), 0, |bytes|) == bytes
  {
    WholeWindow(bytes);
  }

  lemma ValidatorPasses()
    ensures ValidatorOk(DecodeValidator(ValidatorBytes()), VALIDATOR_SIZE)
  {
    ValidatorDecodes();
    LeZero(8);
    hide Le, Value, DecodeValidator, AllZero;
  }

  lemma LocalhostTail()
    ensures forall i :: 4 <= i < 16 ==> Localhost()[i] == 0
  {
    LeZero(12);
    hide Le;
    forall i | 4 <= i < 16 ensures Localhost()[i] == 0 {
      assert Localhost()[i] == Le(0, 12)[i - 4];
    }
  }

  lemma EndpointPasses()
    ensures EndpointVerdict(DecodeEndpoint(EndpointBytes()), ENDPOINT_SIZE) == Ok
  {
    EndpointDecodes();
    LeZero(4);
    LocalhostTail();
    hide Le, Value, DecodeEndpoint, AllZero, EndpointBytes, Localhost, EndpointVerdict;
    EndpointAccepted(DecodeEndpoint(EndpointBytes()), ENDPOINT_SIZE);
  }

  lemma AssociationPasses()
    ensures AssociationOk(DecodeAssociation(AssociationBytes()), ASSOCIATION_SIZE, 1, 1)
  {
    AssociationDecodes();
    hide Le, Value, DecodeAssociation;
  }

  lemma LeaderPasses()
    ensures LeaderOk(DecodeLeader(LeaderBytes()), LEADER_SIZE, 1)
  {
    LeaderDecodes();
    hide Le, Value, DecodeLeader;
  }

  lemma SmallLayoutsPass()
    ensures HeaderIsValid(SmallTopology()) && LayoutsAreValid(SmallTopology())
  {
    hide Le, Value;
  }

  lemma SmallValidatorsPass()
    ensures
      var t := SmallTopology();
      forall i :: 0 <= i < t.validators.count ==>
        ValidatorOk(DecodeValidator(Slice(t.validators, i, VALIDATOR_SIZE)), t.validators.stride)
  {
    ValidatorPasses();
    OnlySlice(ValidatorBytes());
    hide Slice, DecodeValidator, ValidatorOk, ValidatorBytes, EndpointBytes, AssociationBytes, LeaderBytes;
  }

  lemma SmallEndpointsPass()
    ensures
      var t := SmallTopology();
      forall i :: 0 <= i < t.endpoints.count ==>
        EndpointVerdict(DecodeEndpoint(Slice(t.endpoints, i, ENDPOINT_SIZE)), t.endpoints.stride) == Ok
  {
    EndpointPasses();
    OnlySlice(EndpointBytes());
    hide Slice, DecodeEndpoint, EndpointVerdict, ValidatorBytes, EndpointBytes, AssociationBytes, LeaderBytes;
  }

  lemma SmallAssociationsPass()
    ensures
      var t := SmallTopology();
      forall i :: 0 <= i < t.associations.count ==>
        AssociationOk(DecodeAssociation(Slice(t.associations, i, ASSOCIATION_SIZE)), t.associations.stride, t.validators.count, t.endpoints.count)
  {
    AssociationPasses();
    OnlySlice(AssociationBytes());
    hide Slice, DecodeAssociation, AssociationOk, ValidatorBytes, EndpointBytes, AssociationBytes, LeaderBytes;
  }

  lemma SmallLeadersPass()
    ensures
      var t := SmallTopology();
      forall i :: 0 <= i < t.leaders.count ==>
        LeaderOk(DecodeLeader(Slice(t.leaders, i, LEADER_SIZE)), t.leaders.stride, t.validators.count)
  {
    LeaderPasses();
    OnlySlice(LeaderBytes());
    hide Slice, DecodeLeader, LeaderOk, ValidatorBytes, EndpointBytes, AssociationBytes, LeaderBytes;
  }

  lemma SmallIsWellFormed()
    ensures WellFormed(SmallTopology())
  {
    SmallLayoutsPass();
    SmallValidatorsPass();
    SmallEndpointsPass();
    SmallAssociationsPass();
    SmallLeadersPass();
    hide SmallTopology, Slice, DecodeValidator, DecodeEndpoint, DecodeAssociation, DecodeLeader;
    hide ValidatorOk, EndpointVerdict, AssociationOk, LeaderOk, HeaderIsValid, LayoutsAreValid;
  }

  /** Installed, it has one leader and one association, which match at slot 7. */
  lemma SmallResolves(received: u64)
    ensures
      var s := SnapshotOf(SmallTopology(), received);
      && |s.leaders| == 1 && |s.associations| == 1 && s.currentSlot == 7 && s.received == received
      && Matches(s.leaders, s.associations, 7, Pair(0, 0)) && |AllMatches(s, 7)| <= 1
  {
    var t, s := SmallTopology(), SnapshotOf(SmallTopology(), received);
    AssociationDecodes();
    LeaderDecodes();
    OnlySlice(AssociationBytes());
    OnlySlice(LeaderBytes());
    MappedAt(NormalAssociation, t.associations.bytes, 1, t.associations.stride, ASSOCIATION_SIZE, 0);
    MappedAt(NormalLeader, t.leaders.bytes, 1, t.leaders.stride, LEADER_SIZE, 0);
    MatchCountBound(s.leaders, s.associations, 7, 1, 0);
    hide Le, Value, Mapped, DecodeAssociation, DecodeLeader, MatchesBefore, AssociationBytes, LeaderBytes;
  }

  // ---------- the runs ----------

  /** Every calloc granted; the topology is received at 0 and the two samples of a submission
      read as given. */
  function Environment(admission: Reading, stamp: Reading): Oracle {
    Oracle(n => true, n => if n == 0 then Reading(Ok, 0) else if n == 1 then admission else stamp)
  }

  lemma Answers(admission: Reading, stamp: Reading)
    ensures
      var oracle := Environment(admission, stamp);
      && oracle.clock(0) == Reading(Ok, 0) && oracle.clock(1) == admission && oracle.clock(2) == stamp
      && forall n :: oracle.grants(n)
  {
  }

  /** One byte to send, to one target, on a topology at most 10 old. */
  const SMALL_SUBMISSION := Submission(true, true, [1], Some(Options(OPTIONS_SIZE, 0, 10, 1, 0)))

  function SmallRun(): seq<Op> {
    [InstallOp(SmallTopology()), SubmitOp(SMALL_SUBMISSION)]
  }

  lemma SmallRunIsHonest()
    ensures forall op :: op in SmallRun() ==> Honest(op)
  {
    var t := SmallTopology();
    hide Le, Value;
    assert Honest(InstallOp(t)) && Honest(SubmitOp(SMALL_SUBMISSION));
  }

  lemma RunOfOne(oracle: Oracle, h: History, op: Op)
    ensures Run(oracle, h, [op]) == Step(oracle, h, op)
  {
    hide Step;
    assert [op][..0] == [];
    assert Run(oracle, h, [op]) == Step(oracle, Run(oracle, h, [op][..0]), op);
  }

  lemma RunOfTwo(oracle: Oracle, h: History, first: Op, second: Op)
    ensures Run(oracle, h, [first, second]) == Step(oracle, Step(oracle, h, first), second)
  {
    hide Step;
    var ops := [first, second];
    assert ops[..1] == [first];
    assert Run(oracle, h, ops) == Step(oracle, Run(oracle, h, ops[..1]), ops[1]);
    RunOfOne(oracle, h, first);
  }

  /** The history after the installation, whatever the submission's samples will be. */
  function Installed(admission: Reading, stamp: Reading): History {
    Step(Environment(admission, stamp), Initial(0, 0), InstallOp(SmallTopology()))
  }

  lemma SmallInstalls(admission: Reading, stamp: Reading)
    ensures
      var h := Installed(admission, stamp);
      && h.installs == [SnapshotOf(SmallTopology(), 0)] && h.state.snapshot == Some(h.installs[0])
      && h.state.queue == [] && h.state.nextId == 1 && h.state.samples == 1 && h.admissions == [] && h.drained == []
  {
    hide Install, WellFormed, SnapshotOf, SmallTopology, Coherent, Environment;
    var oracle := Environment(admission, stamp);
    Answers(admission, stamp);
    SmallIsWellFormed();
    InstallAllOrNothing(oracle, Initial(0, 0).state, SmallTopology());
    InstallShape(oracle, Initial(0, 0).state, SmallTopology());
  }

  lemma SmallArgumentsPass()
    ensures ArgumentsVerdict(SMALL_SUBMISSION) == Ok
  {
  }

  /** Nothing stands in the way of the submission on the installed topology. */
  lemma SmallIsAdmitted(oracle: Oracle, s: State)
    requires oracle.clock(1) == Reading(Ok, 5) && s.samples == 1
    requires s.snapshot.Some? && s.snapshot.value.received == 0
    ensures Admitted(oracle, s, SMALL_SUBMISSION)
  {
    SmallArgumentsPass();
    hide ArgumentsVerdict;
  }

  lemma SmallIsResourced(oracle: Oracle, s: State)
    requires forall n :: oracle.grants(n)
    requires s.snapshot.Some? && |AllMatches(s.snapshot.value, s.snapshot.value.currentSlot)| <= 1
    requires s.queue == [] && s.nextId == 1
    ensures Resourced(oracle, s, SMALL_SUBMISSION)
  {
    hide AllMatches;
  }

  lemma SmallIsContactable(received: u64)
    ensures Contactable(SnapshotOf(SmallTopology(), received))
  {
    SmallResolves(received);
    hide SnapshotOf, SmallTopology;
    var topology := SnapshotOf(SmallTopology(), received);
    assert ContainsSlot(topology.leaders[0], topology.currentSlot);
    assert topology.associations[0].validatorIndex == topology.leaders[0].validatorIndex;
  }

  lemma SmallIsAcceptable(oracle: Oracle, s: State)
    requires oracle == Environment(Reading(Ok, 5), Reading(Ok, 1000)) && s.samples == 1
    requires s.snapshot == Some(SnapshotOf(SmallTopology(), 0)) && s.queue == [] && s.nextId == 1
    ensures Acceptable(oracle, s, SMALL_SUBMISSION)
  {
    hide Environment, SnapshotOf, SmallTopology, Matches, AllMatches, Admitted, Contactable, Resourced;
    Answers(Reading(Ok, 5), Reading(Ok, 1000));
    SmallResolves(0);
    SmallIsContactable(0);
    SmallIsAdmitted(oracle, s);
    SmallIsResourced(oracle, s);
  }

  /** So it is accepted, and its event carries the second sample. */
  lemma SmallIsAccepted(oracle: Oracle, s: State)
    requires oracle == Environment(Reading(Ok, 5), Reading(Ok, 1000)) && s.samples == 1
    requires s.snapshot == Some(SnapshotOf(SmallTopology(), 0)) && s.queue == [] && s.nextId == 1
    ensures
      var out := Submit(oracle, s, SMALL_SUBMISSION);
      out.status == Ok && out.next.queue == [AcceptedEvent(1, 1000)]
  {
    SmallIsAcceptable(oracle, s);
    SubmitAcceptsExactlyWhen(oracle, s, SMALL_SUBMISSION);
    SubmitShape(oracle, s, SMALL_SUBMISSION);
    hide Submit, Acceptable, SnapshotOf, SmallTopology, RequestFrom, Resolve, ArgumentsVerdict, AdmissionVerdict, StampVerdict;
  }

  /** A reachable history in which the topology was received at 0, a request with maximum age 10
      was accepted, and its event is stamped 1000. */
  lemma LateStampHappens()
    ensures
      var oracle := Environment(Reading(Ok, 5), Reading(Ok, 1000));
      var h := Run(oracle, Initial(0, 0), SmallRun());
      && Reachable(oracle, h) && (forall op :: op in SmallRun() ==> Honest(op))
      && |h.installs| == 1 && h.installs[0].received == 0
      && |h.admissions| == 1 && h.admissions[0].maxAge == 10
      && h.state.queue == [AcceptedEvent(1, 1000)]
  {
    hide Run, Install, Submit, SnapshotOf, SmallTopology, Reachable, Honest, Matches, AllMatches, Environment;
    var admission, stamp := Reading(Ok, 5), Reading(Ok, 1000);
    var oracle, before := Environment(admission, stamp), Installed(admission, stamp);
    RunOfTwo(oracle, Initial(0, 0), InstallOp(SmallTopology()), SubmitOp(SMALL_SUBMISSION));
    RunIsReachable(oracle, 0, 0, SmallRun());
    SmallRunIsHonest();
    SmallInstalls(admission, stamp);
    SmallResolves(0);
    SmallIsAccepted(oracle, before.state);
    assert Step(oracle, before, SubmitOp(SMALL_SUBMISSION))
      == AfterSubmit(oracle, before, SMALL_SUBMISSION, Submit(oracle, before.state, SMALL_SUBMISSION));
  }

  lemma SmallIsRefused(oracle: Oracle, s: State)
    requires oracle.clock(1).status == TopologyStale && s.samples == 1 && s.snapshot.Some?
    ensures Submit(oracle, s, SMALL_SUBMISSION).status == TopologyStale && !TooOld(oracle, s, SMALL_SUBMISSION)
  {
    SmallArgumentsPass();
    StatusOfSubmit(oracle, s, SMALL_SUBMISSION);
    hide Submit, Contactable, Resourced, ArgumentsVerdict;
  }

  /** The same run with a clock that answers STALE to the admission sample: the submission is
      refused with that status although the topology is not too old. */
  lemma StaleFromTheClock()
    ensures
      var oracle := Environment(Reading(TopologyStale, 5), Reading(Ok, 1000));
      var h := Run(oracle, Initial(0, 0), SmallRun()[..1]);
      && Reachable(oracle, h)
      && Submit(oracle, h.state, SMALL_SUBMISSION).status == TopologyStale
      && !TooOld(oracle, h.state, SMALL_SUBMISSION)
  {
    hide Run, Install, Submit, SnapshotOf, SmallTopology, Reachable, TooOld, Environment;
    var admission, stamp := Reading(TopologyStale, 5), Reading(Ok, 1000);
    var oracle, before := Environment(admission, stamp), Installed(admission, stamp);
    assert SmallRun()[..1] == [InstallOp(SmallTopology())];
    RunOfOne(oracle, Initial(0, 0), InstallOp(SmallTopology()));
    RunIsReachable(oracle, 0, 0, SmallRun()[..1]);
    Answers(admission, stamp);
    SmallInstalls(admission, stamp);
    SmallIsRefused(oracle, before.state);
  }
}
