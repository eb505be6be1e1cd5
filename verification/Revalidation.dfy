/** Installing preserves meaning: the owned copy is itself a valid topology with the same
    records, and resolution cannot tell it from the source. */
module Revalidation {
  import opened Machine
  import opened Records
  import opened Layout
  import opened Topology
  import opened Ownership
  import opened Resolution

  /** Same record, at an index of the owned array and of the source array. */
  lemma SameRecord<T>(decode: seq<u8> -> T, normal: seq<u8> -> T, owned: Strided, source: Strided, size: nat, i: nat)
    requires i < owned.count == source.count
    requires Mapped(decode, owned.bytes, owned.count, owned.stride, size)
      == Mapped(normal, source.bytes, source.count, source.stride, size)
    ensures decode(Slice(owned, i, size)) == normal(Slice(source, i, size))
  {
    MappedAt(decode, owned.bytes, owned.count, owned.stride, size, i);
    MappedAt(normal, source.bytes, source.count, source.stride, size, i);
  }

  /** The validators and endpoints of the owned copy pass every check the source's passed. */
  lemma OwnedContactsPass(owned: OwnedTopology, t: TopologyInput, received: u64)
    requires WellFormed(t) && owned.Valid() && owned.ToSnapshot() == SnapshotOf(t, received)
    ensures
      var own := owned.AsInput();
      && (forall i :: 0 <= i < own.validators.count ==>
            ValidatorOk(DecodeValidator(Slice(own.validators, i, VALIDATOR_SIZE)), own.validators.stride))
      && (forall i :: 0 <= i < own.endpoints.count ==>
            EndpointVerdict(DecodeEndpoint(Slice(own.endpoints, i, ENDPOINT_SIZE)), own.endpoints.stride) == Ok)
  {
    hide Mapped, Slice, DecodeValidator, DecodeEndpoint, DecodeAssociation, DecodeLeader, LayoutsAreValid;
    SameCounts(owned, t, received);
    var own := owned.AsInput();
    forall i | 0 <= i < own.validators.count
      ensures ValidatorOk(DecodeValidator(Slice(own.validators, i, VALIDATOR_SIZE)), own.validators.stride)
    {
      SameRecord(DecodeValidator, NormalValidator, own.validators, t.validators, VALIDATOR_SIZE, i);
    }
    forall i | 0 <= i < own.endpoints.count
      ensures EndpointVerdict(DecodeEndpoint(Slice(own.endpoints, i, ENDPOINT_SIZE)), own.endpoints.stride) == Ok
    {
      SameRecord(DecodeEndpoint, NormalEndpoint, own.endpoints, t.endpoints, ENDPOINT_SIZE, i);
    }
  }

  /** So do its associations and leaders. */
  lemma OwnedSchedulePasses(owned: OwnedTopology, t: TopologyInput, received: u64)
    requires WellFormed(t) && owned.Valid() && owned.ToSnapshot() == SnapshotOf(t, received)
    ensures
      var own := owned.AsInput();
      && (forall i :: 0 <= i < own.associations.count ==>
            AssociationOk(DecodeAssociation(Slice(own.associations, i, ASSOCIATION_SIZE)),
                          own.associations.stride, own.validators.count, own.endpoints.count))
      && (forall i :: 0 <= i < own.leaders.count ==>
            LeaderOk(DecodeLeader(Slice(own.leaders, i, LEADER_SIZE)), own.leaders.stride, own.validators.count))
  {
    hide Mapped, Slice, DecodeValidator, DecodeEndpoint, DecodeAssociation, DecodeLeader, LayoutsAreValid;
    SameCounts(owned, t, received);
    var own := owned.AsInput();
    forall i | 0 <= i < own.associations.count
      ensures AssociationOk(DecodeAssociation(Slice(own.associations, i, ASSOCIATION_SIZE)),
                            own.associations.stride, own.validators.count, own.endpoints.count)
    {
      SameRecord(DecodeAssociation, NormalAssociation, own.associations, t.associations, ASSOCIATION_SIZE, i);
    }
    forall i | 0 <= i < own.leaders.count
      ensures LeaderOk(DecodeLeader(Slice(own.leaders, i, LEADER_SIZE)), own.leaders.stride, own.validators.count)
    {
      SameRecord(DecodeLeader, NormalLeader, own.leaders, t.leaders, LEADER_SIZE, i);
    }
  }

  lemma SameCounts(owned: OwnedTopology, t: TopologyInput, received: u64)
    requires owned.ToSnapshot() == SnapshotOf(t, received)
    ensures owned.validatorCount == t.validators.count && owned.endpointCount == t.endpoints.count
    ensures owned.associationCount == t.associations.count && owned.leaderCount == t.leaders.count
  {
    var s := owned.ToSnapshot();
    assert |s.validators| == owned.validatorCount && |s.endpoints| == owned.endpointCount;
    assert |s.associations| == owned.associationCount && |s.leaders| == owned.leaderCount;
  }

  lemma OwnedLayoutsPass(owned: OwnedTopology)
    requires owned.Valid()
    ensures LayoutsAreValid(owned.AsInput()) && IsBacked(owned.AsInput())
  {
    var own := owned.AsInput();
    OverflowTestNeverRejects(own.validators, VALIDATOR_SIZE, 4);
    OverflowTestNeverRejects(own.endpoints, ENDPOINT_SIZE, 4);
    OverflowTestNeverRejects(own.associations, ASSOCIATION_SIZE, 4);
    OverflowTestNeverRejects(own.leaders, LEADER_SIZE, 8);
  }

  /** Validating the owned copy yields OK again, and it stands for the same snapshot. */
  lemma OwnedCopyRevalidates(owned: OwnedTopology, t: TopologyInput, received: u64)
    requires Validate(t) == Ok && owned.Valid() && owned.ToSnapshot() == SnapshotOf(t, received)
    ensures Validate(owned.AsInput()) == Ok
    ensures SnapshotOf(owned.AsInput(), received) == owned.ToSnapshot()
  {
    ValidateAccepts(t);
    OwnedLayoutsPass(owned);
    OwnedContactsPass(owned, t, received);
    OwnedSchedulePasses(owned, t, received);
    ValidateAccepts(owned.AsInput());
    hide Validate, WellFormed, LayoutsAreValid, IsBacked;
    var own := owned.AsInput();
    SameNormal(DecodeValidator, NormalValidator, own.validators, VALIDATOR_SIZE, t.validators);
    SameNormal(DecodeEndpoint, NormalEndpoint, own.endpoints, ENDPOINT_SIZE, t.endpoints);
    SameNormal(DecodeAssociation, NormalAssociation, own.associations, ASSOCIATION_SIZE, t.associations);
    SameNormal(DecodeLeader, NormalLeader, own.leaders, LEADER_SIZE, t.leaders);
  }

  /** Normalising normalised records changes nothing. */
  lemma {:induction false} SameNormal<T>(decode: seq<u8> -> T, normal: seq<u8> -> T, owned: Strided, size: nat, source: Strided)
    requires owned.count == source.count
    requires Mapped(decode, owned.bytes, owned.count, owned.stride, size)
      == Mapped(normal, source.bytes, source.count, source.stride, size)
    requires forall b: seq<u8>, c: seq<u8> :: decode(b) == normal(c) ==> normal(b) == decode(b)
    ensures Mapped(normal, owned.bytes, owned.count, owned.stride, size)
      == Mapped(decode, owned.bytes, owned.count, owned.stride, size)
  {
    forall i | 0 <= i < owned.count
      ensures Mapped(normal, owned.bytes, owned.count, owned.stride, size)[i]
        == Mapped(decode, owned.bytes, owned.count, owned.stride, size)[i]
    {
      SameRecord(decode, normal, owned, source, size, i);
      MappedAt(normal, owned.bytes, owned.count, owned.stride, size, i);
      MappedAt(decode, owned.bytes, owned.count, owned.stride, size, i);
    }
  }

  // ---------- resolution over the source ----------

  /** The source's own records, sizes as the caller declared them. */
  function SourceRecords(t: TopologyInput, received: u64): Snapshot {
    Snapshot(
      t.generation, t.currentSlot,
      Mapped(DecodeValidator, t.validators.bytes, t.validators.count, t.validators.stride, VALIDATOR_SIZE),
      Mapped(DecodeEndpoint, t.endpoints.bytes, t.endpoints.count, t.endpoints.stride, ENDPOINT_SIZE),
      Mapped(DecodeAssociation, t.associations.bytes, t.associations.count, t.associations.stride, ASSOCIATION_SIZE),
      Mapped(DecodeLeader, t.leaders.bytes, t.leaders.count, t.leaders.stride, LEADER_SIZE),
      received)
  }

  /** Equal up to struct sizes. */
  ghost predicate SameSchedule(a: Snapshot, b: Snapshot) {
    && |a.leaders| == |b.leaders| && |a.associations| == |b.associations|
    && (forall i :: 0 <= i < |a.leaders| ==> a.leaders[i] == b.leaders[i].(structSize := a.leaders[i].structSize))
    && (forall i :: 0 <= i < |a.associations| ==>
          a.associations[i] == b.associations[i].(structSize := a.associations[i].structSize))
  }

  lemma {:induction false} MatchesIgnoreSizes(a: Snapshot, b: Snapshot, slot: u64, leader: nat, association: nat)
    requires SameSchedule(a, b) && leader <= |a.leaders| && association <= |a.associations|
    ensures MatchesBefore(a.leaders, a.associations, slot, leader, association)
      == MatchesBefore(b.leaders, b.associations, slot, leader, association)
    decreases leader, association
  {
    if association > 0 {
      MatchesIgnoreSizes(a, b, slot, leader, association - 1);
    } else if leader > 0 {
      MatchesIgnoreSizes(a, b, slot, leader - 1, |a.associations|);
    }
  }

  /** For every slot, resolving over the installed copy is resolving over the source. */
  lemma ResolvingOwnedIsResolvingSource(t: TopologyInput, received: u64, slot: u64)
    ensures Resolve(SnapshotOf(t, received), slot) == Resolve(SourceRecords(t, received), slot)
  {
    var a, b := SnapshotOf(t, received), SourceRecords(t, received);
    forall i | 0 <= i < |a.leaders|
      ensures a.leaders[i] == b.leaders[i].(structSize := a.leaders[i].structSize)
    {
      MappedAt(NormalLeader, t.leaders.bytes, t.leaders.count, t.leaders.stride, LEADER_SIZE, i);
      MappedAt(DecodeLeader, t.leaders.bytes, t.leaders.count, t.leaders.stride, LEADER_SIZE, i);
    }
    forall i | 0 <= i < |a.associations|
      ensures a.associations[i] == b.associations[i].(structSize := a.associations[i].structSize)
    {
      MappedAt(NormalAssociation, t.associations.bytes, t.associations.count, t.associations.stride, ASSOCIATION_SIZE, i);
      MappedAt(DecodeAssociation, t.associations.bytes, t.associations.count, t.associations.stride, ASSOCIATION_SIZE, i);
    }
    MatchesIgnoreSizes(a, b, slot, |a.leaders|, 0);
    ResolutionIsTheJoin(a, slot);
  }

  /** What a client holds after installing `t` is a valid topology again, and every slot
      resolves over its bytes as over the source. */
  lemma InstalledPreservesMeaning(installed: TopologySlot, t: TopologyInput, received: u64, slot: u64)
    requires installed.Valid() && Validate(t) == Ok && installed.snapshot == Some(SnapshotOf(t, received))
    ensures installed.has && Validate(installed.topology.AsInput()) == Ok
    ensures Resolve(installed.topology.ToSnapshot(), slot) == Resolve(SourceRecords(t, received), slot)
  {
    hide Validate, SnapshotOf, Coherent, Packed, Mapped, Resolve;
    OwnedCopyRevalidates(installed.topology, t, received);
    ResolvingOwnedIsResolvingSource(t, received, slot);
  }
}
