/** The topology format byte by byte: an account of what is accepted and what is installed that
    mentions neither decoders nor record checks, and the proof that those two agree with it. */
module Format {
  import opened Machine
  import opened Bytes
  import opened Records
  import opened Layout
  import opened Topology

  ghost predicate ValidatorFormat(b: seq<u8>, stride: u32)
    requires |b| == 48
  {
    48 <= U32At(b, 0) <= stride && U32At(b, 4) == 0 && forall i :: 40 <= i < 48 ==> b[i] == 0
  }

  /** Family IPv4 or IPv6, transport QUIC, role TPU; an IPv4 address is padded with zeros. */
  ghost predicate EndpointFormat(b: seq<u8>, stride: u32)
    requires |b| == 32
  {
    && 32 <= U32At(b, 0) <= stride && (b[4] == 4 || b[4] == 6) && b[5] == 1 && b[6] == 1 && b[7] == 0
    && U16At(b, 8) != 0 && U16At(b, 10) == 0
    && (b[4] == 4 ==> forall i :: 16 <= i < 28 ==> b[i] == 0)
    && forall i :: 28 <= i < 32 ==> b[i] == 0
  }

  ghost predicate AssociationFormat(b: seq<u8>, stride: u32, validators: u32, endpoints: u32)
    requires |b| == 16
  {
    16 <= U32At(b, 0) <= stride && U32At(b, 4) < validators && U32At(b, 8) < endpoints && U32At(b, 12) == 0
  }

  ghost predicate LeaderFormat(b: seq<u8>, stride: u32, validators: u32)
    requires |b| == 32
  {
    32 <= U32At(b, 0) <= stride && U32At(b, 4) < validators && U64At(b, 8) <= U64At(b, 16) && U64At(b, 24) == 0
  }

  /** An array whose pointer, alignment and stride can be used, or an empty one. */
  predicate Usable(a: Strided, size: nat, alignment: nat)
    requires alignment > 0
  {
    a.count == 0 || (a.present && a.aligned && a.stride >= size && a.stride % alignment == 0)
  }

  /** The record at index * stride lies in the caller's memory. */
  predicate Inside(a: Strided, index: nat, size: nat) {
    index * a.stride + size <= |a.bytes|
  }

  function Element(a: Strided, index: nat, size: nat): (b: seq<u8>)
    requires Inside(a, index, size)
    ensures |b| == size
  {
    a.bytes[index * a.stride..index * a.stride + size]
  }

  ghost predicate ValidatorsFormat(t: TopologyInput) {
    forall i :: 0 <= i < t.validators.count ==>
      Inside(t.validators, i, 48) && ValidatorFormat(Element(t.validators, i, 48), t.validators.stride)
  }

  ghost predicate EndpointsFormat(t: TopologyInput) {
    forall i :: 0 <= i < t.endpoints.count ==>
      Inside(t.endpoints, i, 32) && EndpointFormat(Element(t.endpoints, i, 32), t.endpoints.stride)
  }

  ghost predicate AssociationsFormat(t: TopologyInput) {
    forall i :: 0 <= i < t.associations.count ==>
      && Inside(t.associations, i, 16)
      && AssociationFormat(Element(t.associations, i, 16), t.associations.stride, t.validators.count, t.endpoints.count)
  }

  ghost predicate LeadersFormat(t: TopologyInput) {
    forall i :: 0 <= i < t.leaders.count ==>
      && Inside(t.leaders, i, 32)
      && LeaderFormat(Element(t.leaders, i, 32), t.leaders.stride, t.validators.count)
  }

  ghost predicate LayoutsFormat(t: TopologyInput) {
    && Usable(t.validators, 48, 4) && Usable(t.endpoints, 32, 4)
    && Usable(t.associations, 16, 4) && Usable(t.leaders, 32, 8)
  }

  /** The whole format. */
  ghost predicate TopologyFormat(t: TopologyInput) {
    && t.addressable && t.structSize >= 88 && t.reserved0 == 0 && LayoutsFormat(t)
    && ValidatorsFormat(t) && EndpointsFormat(t) && AssociationsFormat(t) && LeadersFormat(t)
  }

  // ---------- records ----------

  lemma ValidatorFormatIs(b: seq<u8>, stride: u32)
    requires |b| == 48
    ensures ValidatorFormat(b, stride) <==> ValidatorOk(DecodeValidator(b), stride)
  {
    WholeWindow(b);
    hide U32At;
    assert forall i :: 40 <= i < 48 ==> b[i] == b[40..48][i - 40];
    assert forall i :: 0 <= i < 8 ==> b[40..48][i] == b[40 + i];
  }

  lemma EndpointFormatIs(b: seq<u8>, stride: u32)
    requires |b| == 32
    ensures EndpointFormat(b, stride) <==> EndpointVerdict(DecodeEndpoint(b), stride) == Ok
  {
    hide EndpointVerdict, U32At, U16At;
    WholeWindow(b);
    var e := DecodeEndpoint(b);
    EndpointAccepted(e, stride);
    assert forall i :: 0 <= i < 4 ==> e.reserved2[i] == b[28 + i];
    assert forall i :: 28 <= i < 32 ==> b[i] == e.reserved2[i - 28];
    assert forall i :: 4 <= i < 16 ==> e.address[i] == b[12 + i];
    assert forall i :: 16 <= i < 28 ==> b[i] == e.address[i - 12];
  }

  lemma AssociationFormatIs(b: seq<u8>, stride: u32, validators: u32, endpoints: u32)
    requires |b| == 16
    ensures AssociationFormat(b, stride, validators, endpoints) <==>
      AssociationOk(DecodeAssociation(b), stride, validators, endpoints)
  {
    WholeWindow(b);
    hide U32At;
  }

  lemma LeaderFormatIs(b: seq<u8>, stride: u32, validators: u32)
    requires |b| == 32
    ensures LeaderFormat(b, stride, validators) <==> LeaderOk(DecodeLeader(b), stride, validators)
  {
    WholeWindow(b);
    hide U32At, U64At;
  }

  // ---------- arrays ----------

  lemma UsableIsValid(a: Strided, size: nat, alignment: nat)
    requires 0 < size <= 0x1_0000_0000 && alignment > 0
    ensures Usable(a, size, alignment) <==> LayoutIsValid(a, size, alignment)
  {
    OverflowTestNeverRejects(a, size, alignment);
  }

  /** A backed array has every element inside, and the slice a check looks at is that element. */
  lemma ElementIs(a: Strided, size: nat, alignment: nat, index: nat)
    requires 0 < size <= 0x1_0000_0000 && alignment > 0 && index < a.count
    requires Usable(a, size, alignment) && Backed(a, size, alignment)
    ensures Inside(a, index, size) && Slice(a, index, size) == Element(a, index, size)
  {
    UsableIsValid(a, size, alignment);
    ElementInside(index, a.count, a.stride, size, |a.bytes|);
    OffsetIsProduct(index, a.stride);
  }

  lemma ValidatorsAgree(t: TopologyInput)
    requires Usable(t.validators, 48, 4) && Backed(t.validators, VALIDATOR_SIZE, 4)
    ensures ValidatorsFormat(t) <==> forall i :: 0 <= i < t.validators.count ==>
      ValidatorOk(DecodeValidator(Slice(t.validators, i, VALIDATOR_SIZE)), t.validators.stride)
  {
    hide ValidatorFormat, ValidatorOk, DecodeValidator, Slice, Element, Inside, Backed;
    forall i | 0 <= i < t.validators.count
      ensures
        && Inside(t.validators, i, 48)
        && (ValidatorFormat(Element(t.validators, i, 48), t.validators.stride) <==>
              ValidatorOk(DecodeValidator(Slice(t.validators, i, VALIDATOR_SIZE)), t.validators.stride))
    {
      ElementIs(t.validators, 48, 4, i);
      ValidatorFormatIs(Element(t.validators, i, 48), t.validators.stride);
    }
  }

  lemma EndpointsAgree(t: TopologyInput)
    requires Usable(t.endpoints, 32, 4) && Backed(t.endpoints, ENDPOINT_SIZE, 4)
    ensures EndpointsFormat(t) <==> forall i :: 0 <= i < t.endpoints.count ==>
      EndpointVerdict(DecodeEndpoint(Slice(t.endpoints, i, ENDPOINT_SIZE)), t.endpoints.stride) == Ok
  {
    hide EndpointFormat, EndpointVerdict, DecodeEndpoint, Slice, Element, Inside, Backed;
    forall i | 0 <= i < t.endpoints.count
      ensures
        && Inside(t.endpoints, i, 32)
        && (EndpointFormat(Element(t.endpoints, i, 32), t.endpoints.stride) <==>
              EndpointVerdict(DecodeEndpoint(Slice(t.endpoints, i, ENDPOINT_SIZE)), t.endpoints.stride) == Ok)
    {
      ElementIs(t.endpoints, 32, 4, i);
      EndpointFormatIs(Element(t.endpoints, i, 32), t.endpoints.stride);
    }
  }

  lemma AssociationsAgree(t: TopologyInput)
    requires Usable(t.associations, 16, 4) && Backed(t.associations, ASSOCIATION_SIZE, 4)
    ensures AssociationsFormat(t) <==> forall i :: 0 <= i < t.associations.count ==>
      AssociationOk(DecodeAssociation(Slice(t.associations, i, ASSOCIATION_SIZE)),
                    t.associations.stride, t.validators.count, t.endpoints.count)
  {
    hide AssociationFormat, AssociationOk, DecodeAssociation, Slice, Element, Inside, Backed;
    forall i | 0 <= i < t.associations.count
      ensures
        && Inside(t.associations, i, 16)
        && (AssociationFormat(Element(t.associations, i, 16), t.associations.stride, t.validators.count, t.endpoints.count)
            <==> AssociationOk(DecodeAssociation(Slice(t.associations, i, ASSOCIATION_SIZE)),
                               t.associations.stride, t.validators.count, t.endpoints.count))
    {
      ElementIs(t.associations, 16, 4, i);
      AssociationFormatIs(Element(t.associations, i, 16), t.associations.stride, t.validators.count, t.endpoints.count);
    }
  }

  lemma LeadersAgree(t: TopologyInput)
    requires Usable(t.leaders, 32, 8) && Backed(t.leaders, LEADER_SIZE, 8)
    ensures LeadersFormat(t) <==> forall i :: 0 <= i < t.leaders.count ==>
      LeaderOk(DecodeLeader(Slice(t.leaders, i, LEADER_SIZE)), t.leaders.stride, t.validators.count)
  {
    hide LeaderFormat, LeaderOk, DecodeLeader, Slice, Element, Inside, Backed;
    forall i | 0 <= i < t.leaders.count
      ensures
        && Inside(t.leaders, i, 32)
        && (LeaderFormat(Element(t.leaders, i, 32), t.leaders.stride, t.validators.count) <==>
              LeaderOk(DecodeLeader(Slice(t.leaders, i, LEADER_SIZE)), t.leaders.stride, t.validators.count))
    {
      ElementIs(t.leaders, 32, 8, i);
      LeaderFormatIs(Element(t.leaders, i, 32), t.leaders.stride, t.validators.count);
    }
  }

  lemma LayoutsAgree(t: TopologyInput)
    ensures LayoutsFormat(t) <==> LayoutsAreValid(t)
  {
    hide Usable, LayoutIsValid;
    UsableIsValid(t.validators, 48, 4);
    UsableIsValid(t.endpoints, 32, 4);
    UsableIsValid(t.associations, 16, 4);
    UsableIsValid(t.leaders, 32, 8);
  }

  // ---------- the whole topology ----------

  /** Validation accepts exactly the byte format. */
  lemma ValidatesExactlyTheFormat(t: TopologyInput)
    requires IsBacked(t)
    ensures Validate(t) == Ok <==> TopologyFormat(t)
  {
    hide Validate, Usable, Backed, ValidatorsFormat, EndpointsFormat, AssociationsFormat, LeadersFormat;
    hide Slice, DecodeValidator, DecodeEndpoint, DecodeAssociation, DecodeLeader, LayoutsAreValid;
    hide ValidatorOk, EndpointVerdict, AssociationOk, LeaderOk;
    ValidateAccepts(t);
    LayoutsAgree(t);
    if LayoutsFormat(t) {
      ValidatorsAgree(t);
      EndpointsAgree(t);
      AssociationsAgree(t);
      LeadersAgree(t);
    }
  }

  /** What a caller owes: memory up to the last byte of the last record of each usable array. */
  lemma BackedMeans(t: TopologyInput)
    ensures IsBacked(t) <==>
      && (t.validators.count > 0 && Usable(t.validators, 48, 4) ==> Inside(t.validators, t.validators.count - 1, 48))
      && (t.endpoints.count > 0 && Usable(t.endpoints, 32, 4) ==> Inside(t.endpoints, t.endpoints.count - 1, 32))
      && (t.associations.count > 0 && Usable(t.associations, 16, 4) ==> Inside(t.associations, t.associations.count - 1, 16))
      && (t.leaders.count > 0 && Usable(t.leaders, 32, 8) ==> Inside(t.leaders, t.leaders.count - 1, 32))
  {
    hide Usable, Inside, Backed;
    ArrayBackedMeans(t.validators, 48, 4);
    ArrayBackedMeans(t.endpoints, 32, 4);
    ArrayBackedMeans(t.associations, 16, 4);
    ArrayBackedMeans(t.leaders, 32, 8);
  }

  lemma ArrayBackedMeans(a: Strided, size: nat, alignment: nat)
    requires 0 < size <= 0x1_0000_0000 && alignment > 0
    ensures Backed(a, size, alignment) <==>
      (a.count > 0 && Usable(a, size, alignment) ==> Inside(a, a.count - 1, size))
  {
    UsableIsValid(a, size, alignment);
    if a.count > 0 {
      OffsetIsProduct(a.count - 1, a.stride);
    }
  }

  // ---------- what is installed ----------

  /** An installed snapshot holds, at each index, the fields that stand in the caller's bytes at
      index * stride; of the sizes only the library's own remain. */
  lemma InstalledSchedule(t: TopologyInput, received: u64, i: nat)
    requires IsBacked(t) && LayoutsFormat(t)
    ensures
      var s := SnapshotOf(t, received);
      && |s.associations| == t.associations.count && |s.leaders| == t.leaders.count
      && s.generation == t.generation && s.currentSlot == t.currentSlot && s.received == received
      && (i < t.leaders.count ==>
            && Inside(t.leaders, i, 32)
            && var b := Element(t.leaders, i, 32);
            s.leaders[i] == Leader(32, U32At(b, 4), U64At(b, 8), U64At(b, 16), U64At(b, 24)))
      && (i < t.associations.count ==>
            && Inside(t.associations, i, 16)
            && var b := Element(t.associations, i, 16);
            s.associations[i] == Association(16, U32At(b, 4), U32At(b, 8), U32At(b, 12)))
  {
    hide U32At, U64At, Usable, Backed, Inside, Element, DecodeValidator, DecodeEndpoint;
    if i < t.leaders.count {
      ElementIs(t.leaders, 32, 8, i);
      MappedAt(NormalLeader, t.leaders.bytes, t.leaders.count, t.leaders.stride, LEADER_SIZE, i);
      WholeWindow(Element(t.leaders, i, 32));
    }
    if i < t.associations.count {
      ElementIs(t.associations, 16, 4, i);
      MappedAt(NormalAssociation, t.associations.bytes, t.associations.count, t.associations.stride, ASSOCIATION_SIZE, i);
      WholeWindow(Element(t.associations, i, 16));
    }
  }

  lemma InstalledContacts(t: TopologyInput, received: u64, i: nat)
    requires IsBacked(t) && LayoutsFormat(t)
    ensures
      var s := SnapshotOf(t, received);
      && |s.validators| == t.validators.count && |s.endpoints| == t.endpoints.count
      && (i < t.validators.count ==>
            && Inside(t.validators, i, 48)
            && var b := Element(t.validators, i, 48);
            s.validators[i] == Validator(48, U32At(b, 4), b[8..40], b[40..48]))
      && (i < t.endpoints.count ==>
            && Inside(t.endpoints, i, 32)
            && var b := Element(t.endpoints, i, 32);
            s.endpoints[i] == Endpoint(32, b[4], b[5], b[6], b[7], U16At(b, 8), U16At(b, 10), b[12..28], b[28..32]))
  {
    hide U32At, U16At, Usable, Backed, Inside, Element, DecodeLeader, DecodeAssociation;
    if i < t.validators.count {
      ElementIs(t.validators, 48, 4, i);
      MappedAt(NormalValidator, t.validators.bytes, t.validators.count, t.validators.stride, VALIDATOR_SIZE, i);
      WholeWindow(Element(t.validators, i, 48));
    }
    if i < t.endpoints.count {
      ElementIs(t.endpoints, 32, 4, i);
      MappedAt(NormalEndpoint, t.endpoints.bytes, t.endpoints.count, t.endpoints.stride, ENDPOINT_SIZE, i);
      WholeWindow(Element(t.endpoints, i, 32));
    }
  }
}
