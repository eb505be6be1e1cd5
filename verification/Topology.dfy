/** Structural validation of a caller-supplied topology, and the snapshot it stands for. */
module Topology {
  import opened Machine
  import opened Bytes
  import opened Records
  import opened Layout

  const TOPOLOGY_SIZE: nat := 88

  const ADDRESS_UNSPEC: u8 := 0
  const ADDRESS_IPV4: u8 := 4
  const ADDRESS_IPV6: u8 := 6
  const TRANSPORT_UNSPEC: u8 := 0
  const TRANSPORT_QUIC: u8 := 1
  const ROLE_UNSPEC: u8 := 0
  const ROLE_TPU: u8 := 1

  /** A caller topology as a value; `addressable` is: the pointer is non-NULL and aligned. */
  datatype TopologyInput = TopologyInput(
    addressable: bool, structSize: u32, reserved0: u32, generation: u64, currentSlot: u64,
    validators: Strided, endpoints: Strided, associations: Strided, leaders: Strided)

  /** The same topology by reference to the caller's four arrays. */
  datatype TopologyView = TopologyView(
    addressable: bool, structSize: u32, reserved0: u32, generation: u64, currentSlot: u64,
    validators: StridedArray, endpoints: StridedArray, associations: StridedArray, leaders: StridedArray)
  {
    /** The caller's arrays. */
    ghost function Bases(): set<object?> {
      {validators.base, endpoints.base, associations.base, leaders.base}
    }

    function Value(): TopologyInput
      reads validators.base, endpoints.base, associations.base, leaders.base
    {
      TopologyInput(addressable, structSize, reserved0, generation, currentSlot,
                    validators.View(), endpoints.View(), associations.View(), leaders.View())
    }
  }

  // ---------- records ----------

  predicate AllZero(bytes: seq<u8>) {
    forall i :: 0 <= i < |bytes| ==> bytes[i] == 0
  }

  method BytesAreZero(bytes: seq<u8>) returns (zero: bool)
    ensures zero <==> AllZero(bytes)
  {
    for i := 0 to |bytes|
      invariant forall j :: 0 <= j < i ==> bytes[j] == 0
    {
      if bytes[i] != 0 {
        return false;
      }
    }
    return true;
  }

  predicate ElementSizeIsValid(structSize: u32, stride: u32, minimum: nat) {
    minimum <= structSize <= stride
  }

  predicate ValidatorOk(v: Validator, stride: u32) {
    ElementSizeIsValid(v.structSize, stride, VALIDATOR_SIZE) && v.reserved0 == 0 && AllZero(v.reserved1)
  }

  predicate AssociationOk(a: Association, stride: u32, validatorCount: u32, endpointCount: u32) {
    && ElementSizeIsValid(a.structSize, stride, ASSOCIATION_SIZE) && a.reserved0 == 0
    && a.validatorIndex < validatorCount && a.endpointIndex < endpointCount
  }

  predicate LeaderOk(l: Leader, stride: u32, validatorCount: u32) {
    && ElementSizeIsValid(l.structSize, stride, LEADER_SIZE) && l.reserved0 == 0
    && l.validatorIndex < validatorCount && l.firstSlot <= l.lastSlot
  }

  predicate EndpointFrameOk(e: Endpoint, stride: u32) {
    && ElementSizeIsValid(e.structSize, stride, ENDPOINT_SIZE)
    && e.reserved0 == 0 && e.reserved1 == 0 && AllZero(e.reserved2) && e.port != 0
  }

  /** An enumerated byte: zero is malformed, any other unlisted value is merely unsupported. */
  function Enumerated(value: u8, supported: set<u8>): Status {
    if value == 0 then InvalidArgument else if value in supported then Ok else Unsupported
  }

  function EndpointVerdict(e: Endpoint, stride: u32): Status {
    if !EndpointFrameOk(e, stride) then InvalidArgument
    else
      FirstOf4(
        Enumerated(e.family, {ADDRESS_IPV4, ADDRESS_IPV6}),
        Enumerated(e.transport, {TRANSPORT_QUIC}),
        Enumerated(e.role, {ROLE_TPU}),
        Verdict(e.family == ADDRESS_IPV4 ==> AllZero(Window(e.address, 4, 12))))
  }

  /** The first of four verdicts that is not Ok, or Ok. */
  function FirstOf4(a: Status, b: Status, c: Status, d: Status): Status {
    if a != Ok then a else if b != Ok then b else if c != Ok then c else d
  }

  function Verdict(ok: bool): Status {
    if ok then Ok else InvalidArgument
  }

  method ValidateValidator(v: Validator, stride: u32) returns (status: Status)
    ensures status == Verdict(ValidatorOk(v, stride))
  {
    var reservedZero := BytesAreZero(v.reserved1);
    if !ElementSizeIsValid(v.structSize, stride, VALIDATOR_SIZE) || v.reserved0 != 0 || !reservedZero {
      return InvalidArgument;
    }
    return Ok;
  }

  method ValidateEndpoint(e: Endpoint, stride: u32) returns (status: Status)
    requires |e.address| == 16
    ensures status == EndpointVerdict(e, stride)
  {
    var reservedZero := BytesAreZero(e.reserved2);
    if !ElementSizeIsValid(e.structSize, stride, ENDPOINT_SIZE) || e.reserved0 != 0 ||
       e.reserved1 != 0 || !reservedZero || e.port == 0 {
      return InvalidArgument;
    }
    if e.family == ADDRESS_UNSPEC {
      return InvalidArgument;
    }
    if e.family != ADDRESS_IPV4 && e.family != ADDRESS_IPV6 {
      return Unsupported;
    }
    if e.transport == TRANSPORT_UNSPEC {
      return InvalidArgument;
    }
    if e.transport != TRANSPORT_QUIC {
      return Unsupported;
    }
    if e.role == ROLE_UNSPEC {
      return InvalidArgument;
    }
    if e.role != ROLE_TPU {
      return Unsupported;
    }
    if e.family == ADDRESS_IPV4 {
      var tailZero := BytesAreZero(e.address[4..]);
      assert e.address[4..] == Window(e.address, 4, 12);
      if !tailZero {
        return InvalidArgument;
      }
    }
    return Ok;
  }

  method ValidateAssociation(a: Association, stride: u32, validatorCount: u32, endpointCount: u32) returns (status: Status)
    ensures status == Verdict(AssociationOk(a, stride, validatorCount, endpointCount))
  {
    if !ElementSizeIsValid(a.structSize, stride, ASSOCIATION_SIZE) || a.reserved0 != 0 ||
       a.validatorIndex >= validatorCount || a.endpointIndex >= endpointCount {
      return InvalidArgument;
    }
    return Ok;
  }

  method ValidateLeader(l: Leader, stride: u32, validatorCount: u32) returns (status: Status)
    ensures status == Verdict(LeaderOk(l, stride, validatorCount))
  {
    if !ElementSizeIsValid(l.structSize, stride, LEADER_SIZE) || l.reserved0 != 0 ||
       l.validatorIndex >= validatorCount || l.firstSlot > l.lastSlot {
      return InvalidArgument;
    }
    return Ok;
  }

  // ---------- the whole topology ----------

  /** Which record check applies, with the strides and counts it refers to. */
  datatype Check =
    | ValidatorCheck(stride: u32)
    | EndpointCheck(stride: u32)
    | AssociationCheck(stride: u32, validatorCount: u32, endpointCount: u32)
    | LeaderCheck(stride: u32, validatorCount: u32)

  function Judge(check: Check, slice: seq<u8>): Status {
    match check
    case ValidatorCheck(stride) => Verdict(ValidatorOk(DecodeValidator(slice), stride))
    case EndpointCheck(stride) => EndpointVerdict(DecodeEndpoint(slice), stride)
    case AssociationCheck(stride, v, e) => Verdict(AssociationOk(DecodeAssociation(slice), stride, v, e))
    case LeaderCheck(stride, v) => Verdict(LeaderOk(DecodeLeader(slice), stride, v))
  }

  function Slice(a: Strided, index: nat, size: nat): seq<u8> {
    Window(a.bytes, Offset(index, a.stride), size)
  }

  /** The verdict on the first offending element from `index` on, or Ok. */
  function Scan(check: Check, a: Strided, size: nat, index: nat): Status
    decreases a.count - index
  {
    if index >= a.count then Ok
    else
      var verdict := Judge(check, Slice(a, index, size));
      if verdict != Ok then verdict else Scan(check, a, size, index + 1)
  }

  /** Elements that pass are skipped. */
  lemma {:induction false} ScanSkips(check: Check, a: Strided, size: nat, first: nat, end: nat)
    requires first <= end <= a.count
    requires forall j :: first <= j < end ==> Judge(check, Slice(a, j, size)) == Ok
    ensures Scan(check, a, size, first) == Scan(check, a, size, end)
    decreases end - first
  {
    hide Judge, Slice;
    if first < end {
      ScanSkips(check, a, size, first + 1, end);
    }
  }

  lemma {:induction false} ScanOk(check: Check, a: Strided, size: nat, index: nat)
    ensures Scan(check, a, size, index) == Ok <==>
      forall j :: index <= j < a.count ==> Judge(check, Slice(a, j, size)) == Ok
    decreases a.count - index
  {
    hide Judge, Slice;
    if index < a.count {
      ScanOk(check, a, size, index + 1);
    }
  }

  /** A rejection is the verdict on the first offending element, whatever comes after it. */
  lemma {:induction false} ScanRejectsFirst(check: Check, a: Strided, size: nat, index: nat, k: nat)
    requires index <= k < a.count
    requires forall j :: index <= j < k ==> Judge(check, Slice(a, j, size)) == Ok
    requires Judge(check, Slice(a, k, size)) != Ok
    ensures Scan(check, a, size, index) == Judge(check, Slice(a, k, size))
  {
    hide Judge, Slice;
    ScanSkips(check, a, size, index, k);
  }

  /** Every rejection has a first offending element. */
  lemma {:induction false} ScanRejection(check: Check, a: Strided, size: nat, index: nat) returns (k: nat)
    requires Scan(check, a, size, index) != Ok
    ensures index <= k < a.count && Judge(check, Slice(a, k, size)) == Scan(check, a, size, index)
    ensures forall j :: index <= j < k ==> Judge(check, Slice(a, j, size)) == Ok
    decreases a.count - index
  {
    hide Judge, Slice;
    if Judge(check, Slice(a, index, size)) != Ok {
      k := index;
    } else {
      k := ScanRejection(check, a, size, index + 1);
    }
  }

  predicate HeaderIsValid(t: TopologyInput) {
    t.addressable && t.structSize >= TOPOLOGY_SIZE && t.reserved0 == 0
  }

  predicate LayoutsAreValid(t: TopologyInput) {
    && LayoutIsValid(t.validators, VALIDATOR_SIZE, 4)
    && LayoutIsValid(t.endpoints, ENDPOINT_SIZE, 4)
    && LayoutIsValid(t.associations, ASSOCIATION_SIZE, 4)
    && LayoutIsValid(t.leaders, LEADER_SIZE, 8)
  }

  /** The memory a caller must provide behind the layouts it declares. */
  predicate IsBacked(t: TopologyInput) {
    && Backed(t.validators, VALIDATOR_SIZE, 4)
    && Backed(t.endpoints, ENDPOINT_SIZE, 4)
    && Backed(t.associations, ASSOCIATION_SIZE, 4)
    && Backed(t.leaders, LEADER_SIZE, 8)
  }

  /** All four arrays can be read without leaving the caller's memory. */
  predicate RecordsReadable(t: TopologyView) {
    && Readable(t.validators, VALIDATOR_SIZE) && Readable(t.endpoints, ENDPOINT_SIZE)
    && Readable(t.associations, ASSOCIATION_SIZE) && Readable(t.leaders, LEADER_SIZE)
  }

  lemma CheckedRecordsReadable(t: TopologyView)
    requires LayoutsAreValid(t.Value()) && IsBacked(t.Value())
    ensures RecordsReadable(t)
  {
    CheckedIsReadable(t.validators, VALIDATOR_SIZE, 4);
    CheckedIsReadable(t.endpoints, ENDPOINT_SIZE, 4);
    CheckedIsReadable(t.associations, ASSOCIATION_SIZE, 4);
    CheckedIsReadable(t.leaders, LEADER_SIZE, 8);
  }

  function RecordsVerdict(t: TopologyInput): Status {
    FirstOf4(
      Scan(ValidatorCheck(t.validators.stride), t.validators, VALIDATOR_SIZE, 0),
      Scan(EndpointCheck(t.endpoints.stride), t.endpoints, ENDPOINT_SIZE, 0),
      Scan(AssociationCheck(t.associations.stride, t.validators.count, t.endpoints.count), t.associations, ASSOCIATION_SIZE, 0),
      Scan(LeaderCheck(t.leaders.stride, t.validators.count), t.leaders, LEADER_SIZE, 0))
  }

  /** Header and layouts first; then the first offending record in scan order decides. */
  function Validate(t: TopologyInput): Status {
    if !HeaderIsValid(t) || !LayoutsAreValid(t) then InvalidArgument else RecordsVerdict(t)
  }

  /** The scan loops: every element of one array, in order, up to the first failure. */
  method ValidateElements(check: Check, a: StridedArray, size: u32) returns (status: Status)
    requires Readable(a, size)
    ensures status == Scan(check, a.View(), size, 0)
  {
    hide Judge;
    ghost var view := a.View();
    var i: u32 := 0;
    while i < a.count
      invariant i <= a.count
      invariant forall j :: 0 <= j < i ==> Judge(check, Slice(view, j, size)) == Ok
    {
      ElementInside(i, a.count, a.stride, size, a.base.Length);
      var at := ElementOffset(i, a.stride);
      var slice := a.base[at..at + size];
      assert slice == Slice(view, i, size);
      status := ValidateElement(check, slice);
      if status != Ok {
        ScanSkips(check, view, size, 0, i);
        return;
      }
      i := i + 1;
    }
    ScanSkips(check, view, size, 0, i);
    return Ok;
  }

  method ValidateElement(check: Check, slice: seq<u8>) returns (status: Status)
    ensures status == Judge(check, slice)
  {
    match check
    case ValidatorCheck(stride) => status := ValidateValidator(DecodeValidator(slice), stride);
    case EndpointCheck(stride) => status := ValidateEndpoint(DecodeEndpoint(slice), stride);
    case AssociationCheck(stride, v, e) => status := ValidateAssociation(DecodeAssociation(slice), stride, v, e);
    case LeaderCheck(stride, v) => status := ValidateLeader(DecodeLeader(slice), stride, v);
  }

  /** `solana_delivery_topology_validate` */
  method ValidateTopology(t: TopologyView) returns (status: Status)
    requires IsBacked(t.Value())
    ensures status == Validate(t.Value())
  {
    if !t.addressable || t.structSize < TOPOLOGY_SIZE || t.reserved0 != 0 {
      return InvalidArgument;
    }
    if !LayoutIsValid(t.validators.View(), VALIDATOR_SIZE, 4) ||
       !LayoutIsValid(t.endpoints.View(), ENDPOINT_SIZE, 4) ||
       !LayoutIsValid(t.associations.View(), ASSOCIATION_SIZE, 4) ||
       !LayoutIsValid(t.leaders.View(), LEADER_SIZE, 8) {
      return InvalidArgument;
    }
    CheckedRecordsReadable(t);
    status := ValidateRecords(t);
  }

  /** The four scan loops of `solana_delivery_topology_validate`. */
  method ValidateRecords(t: TopologyView) returns (status: Status)
    requires RecordsReadable(t)
    ensures status == RecordsVerdict(t.Value())
  {
    var v, e := t.validators.count, t.endpoints.count;
    status := ValidateElements(ValidatorCheck(t.validators.stride), t.validators, VALIDATOR_SIZE);
    if status != Ok { return; }
    status := ValidateElements(EndpointCheck(t.endpoints.stride), t.endpoints, ENDPOINT_SIZE);
    if status != Ok { return; }
    status := ValidateElements(AssociationCheck(t.associations.stride, v, e), t.associations, ASSOCIATION_SIZE);
    if status != Ok { return; }
    status := ValidateElements(LeaderCheck(t.leaders.stride, v), t.leaders, LEADER_SIZE);
  }

  // ---------- meaning ----------

  /** What an accepted topology is, record by record, with no scan order in sight. */
  ghost predicate WellFormed(t: TopologyInput) {
    && HeaderIsValid(t) && LayoutsAreValid(t)
    && (forall i :: 0 <= i < t.validators.count ==>
        ValidatorOk(DecodeValidator(Slice(t.validators, i, VALIDATOR_SIZE)), t.validators.stride))
    && (forall i :: 0 <= i < t.endpoints.count ==>
        EndpointVerdict(DecodeEndpoint(Slice(t.endpoints, i, ENDPOINT_SIZE)), t.endpoints.stride) == Ok)
    && (forall i :: 0 <= i < t.associations.count ==>
        AssociationOk(DecodeAssociation(Slice(t.associations, i, ASSOCIATION_SIZE)),
                      t.associations.stride, t.validators.count, t.endpoints.count))
    && (forall i :: 0 <= i < t.leaders.count ==>
        LeaderOk(DecodeLeader(Slice(t.leaders, i, LEADER_SIZE)), t.leaders.stride, t.validators.count))
  }

  /** What an accepted endpoint is: a QUIC TPU address, the unused tail of an IPv4 one zero. */
  lemma EndpointAccepted(e: Endpoint, stride: u32)
    requires |e.address| == 16 && |e.reserved2| == 4
    ensures
      var framed := 32 <= e.structSize <= stride && e.reserved0 == 0 && e.reserved1 == 0 && e.port != 0
                    && forall i :: 0 <= i < 4 ==> e.reserved2[i] == 0;
      && (EndpointVerdict(e, stride) == Ok <==>
            && framed && (e.family == 4 || e.family == 6) && e.transport == 1 && e.role == 1
            && (e.family == 4 ==> forall i :: 4 <= i < 16 ==> e.address[i] == 0))
      && (EndpointVerdict(e, stride) == Unsupported <==>
            && framed && e.family != 0
            && (|| (e.family != 4 && e.family != 6) || (e.transport != 0 && e.transport != 1)
                || (e.transport == 1 && e.role != 0 && e.role != 1)))
      && EndpointVerdict(e, stride) in {Ok, Unsupported, InvalidArgument}
  {
    var tail := Window(e.address, 4, 12);
    assert forall i :: 4 <= i < 16 ==> tail[i - 4] == e.address[i];
    if AllZero(tail) {
      forall i | 4 <= i < 16 ensures e.address[i] == 0 {
        assert tail[i - 4] == 0;
      }
    }
  }

  lemma ValidateAccepts(t: TopologyInput)
    ensures Validate(t) == Ok <==> WellFormed(t)
  {
    hide DecodeValidator, DecodeEndpoint, DecodeAssociation, DecodeLeader, Slice, HeaderIsValid, LayoutsAreValid;
    hide ValidatorOk, EndpointVerdict, AssociationOk, LeaderOk;
    ScanOk(ValidatorCheck(t.validators.stride), t.validators, VALIDATOR_SIZE, 0);
    ScanOk(EndpointCheck(t.endpoints.stride), t.endpoints, ENDPOINT_SIZE, 0);
    ScanOk(AssociationCheck(t.associations.stride, t.validators.count, t.endpoints.count), t.associations,
           ASSOCIATION_SIZE, 0);
    ScanOk(LeaderCheck(t.leaders.stride, t.validators.count), t.leaders, LEADER_SIZE, 0);
  }

  lemma {:induction false} ScanVerdicts(check: Check, a: Strided, size: nat, index: nat)
    ensures Scan(check, a, size, index) in {Ok, Unsupported, InvalidArgument}
    decreases a.count - index
  {
    hide Slice, DecodeValidator, DecodeEndpoint, DecodeAssociation, DecodeLeader;
    hide ValidatorOk, EndpointFrameOk, AssociationOk, LeaderOk;
    if index < a.count {
      ScanVerdicts(check, a, size, index + 1);
    }
  }

  /** Validation answers nothing else, so no other status of an installation stems from it. */
  lemma ValidateVerdicts(t: TopologyInput)
    ensures Validate(t) in {Ok, Unsupported, InvalidArgument}
  {
    hide Scan, HeaderIsValid, LayoutsAreValid;
    ScanVerdicts(ValidatorCheck(t.validators.stride), t.validators, VALIDATOR_SIZE, 0);
    ScanVerdicts(EndpointCheck(t.endpoints.stride), t.endpoints, ENDPOINT_SIZE, 0);
    ScanVerdicts(AssociationCheck(t.associations.stride, t.validators.count, t.endpoints.count), t.associations,
                 ASSOCIATION_SIZE, 0);
    ScanVerdicts(LeaderCheck(t.leaders.stride, t.validators.count), t.leaders, LEADER_SIZE, 0);
  }

  function EndpointAt(t: TopologyInput, index: nat): Endpoint {
    DecodeEndpoint(Slice(t.endpoints, index, ENDPOINT_SIZE))
  }

  ghost predicate ValidatorsPass(t: TopologyInput) {
    forall i :: 0 <= i < t.validators.count ==>
      ValidatorOk(DecodeValidator(Slice(t.validators, i, VALIDATOR_SIZE)), t.validators.stride)
  }

  /** Endpoint `k` is the first one that does not pass, and it is merely unsupported. */
  ghost predicate FirstUnsupported(t: TopologyInput, k: nat) {
    && k < t.endpoints.count && EndpointVerdict(EndpointAt(t, k), t.endpoints.stride) == Unsupported
    && forall j :: 0 <= j < k ==> EndpointVerdict(EndpointAt(t, j), t.endpoints.stride) == Ok
  }

  /** Well laid out, every validator accepted, and the first offending endpoint unsupported. */
  ghost predicate UnsupportedTopology(t: TopologyInput) {
    && HeaderIsValid(t) && LayoutsAreValid(t) && ValidatorsPass(t)
    && exists k :: FirstUnsupported(t, k)
  }

  lemma {:induction false} PlainScan(check: Check, a: Strided, size: nat, index: nat)
    requires !check.EndpointCheck?
    ensures Scan(check, a, size, index) in {Ok, InvalidArgument}
    decreases a.count - index
  {
    hide Slice, DecodeValidator, DecodeEndpoint, DecodeAssociation, DecodeLeader;
    hide ValidatorOk, EndpointVerdict, AssociationOk, LeaderOk;
    if index < a.count {
      PlainScan(check, a, size, index + 1);
    }
  }

  lemma EndpointScanUnsupported(t: TopologyInput)
    ensures Scan(EndpointCheck(t.endpoints.stride), t.endpoints, ENDPOINT_SIZE, 0) == Unsupported <==>
      exists k :: FirstUnsupported(t, k)
  {
    hide EndpointVerdict, DecodeEndpoint, Slice;
    var check := EndpointCheck(t.endpoints.stride);
    if Scan(check, t.endpoints, ENDPOINT_SIZE, 0) == Unsupported {
      var k := ScanRejection(check, t.endpoints, ENDPOINT_SIZE, 0);
      assert forall j :: 0 <= j < k ==>
        EndpointVerdict(EndpointAt(t, j), t.endpoints.stride) == Judge(check, Slice(t.endpoints, j, ENDPOINT_SIZE));
      assert FirstUnsupported(t, k);
    }
    if k :| FirstUnsupported(t, k) {
      assert forall j :: 0 <= j <= k ==>
        Judge(check, Slice(t.endpoints, j, ENDPOINT_SIZE)) == EndpointVerdict(EndpointAt(t, j), t.endpoints.stride);
      ScanRejectsFirst(check, t.endpoints, ENDPOINT_SIZE, 0, k);
    }
  }

  /** Which of its two errors validation reports. */
  lemma ValidateUnsupported(t: TopologyInput)
    ensures Validate(t) == Unsupported <==> UnsupportedTopology(t)
  {
    hide Scan, HeaderIsValid, LayoutsAreValid, FirstUnsupported, Slice, ValidatorOk, DecodeValidator;
    ScanOk(ValidatorCheck(t.validators.stride), t.validators, VALIDATOR_SIZE, 0);
    PlainScan(ValidatorCheck(t.validators.stride), t.validators, VALIDATOR_SIZE, 0);
    EndpointScanUnsupported(t);
    ScanVerdicts(EndpointCheck(t.endpoints.stride), t.endpoints, ENDPOINT_SIZE, 0);
    PlainScan(AssociationCheck(t.associations.stride, t.validators.count, t.endpoints.count), t.associations,
              ASSOCIATION_SIZE, 0);
    PlainScan(LeaderCheck(t.leaders.stride, t.validators.count), t.leaders, LEADER_SIZE, 0);
  }

  /** An installed topology: records in order, independent of caller memory and strides. */
  datatype Snapshot = Snapshot(
    generation: u64, currentSlot: u64,
    validators: Table<Validator>, endpoints: Table<Endpoint>,
    associations: Table<Association>, leaders: Table<Leader>,
    received: u64)

  function NormalValidator(b: seq<u8>): Validator { DecodeValidator(b).(structSize := VALIDATOR_SIZE) }
  function NormalEndpoint(b: seq<u8>): Endpoint { DecodeEndpoint(b).(structSize := ENDPOINT_SIZE) }
  function NormalAssociation(b: seq<u8>): Association { DecodeAssociation(b).(structSize := ASSOCIATION_SIZE) }
  function NormalLeader(b: seq<u8>): Leader { DecodeLeader(b).(structSize := LEADER_SIZE) }

  /** What installing `t` at time `received` must mean. */
  function SnapshotOf(t: TopologyInput, received: u64): Snapshot {
    Snapshot(
      t.generation, t.currentSlot,
      Mapped(NormalValidator, t.validators.bytes, t.validators.count, t.validators.stride, VALIDATOR_SIZE),
      Mapped(NormalEndpoint, t.endpoints.bytes, t.endpoints.count, t.endpoints.stride, ENDPOINT_SIZE),
      Mapped(NormalAssociation, t.associations.bytes, t.associations.count, t.associations.stride, ASSOCIATION_SIZE),
      Mapped(NormalLeader, t.leaders.bytes, t.leaders.count, t.leaders.stride, LEADER_SIZE),
      received)
  }

  /** Every index a snapshot carries refers into the snapshot. */
  ghost predicate Coherent(s: Snapshot) {
    && (forall a :: a in s.associations ==> a.validatorIndex < |s.validators| && a.endpointIndex < |s.endpoints|)
    && (forall l :: l in s.leaders ==> l.validatorIndex < |s.validators| && l.firstSlot <= l.lastSlot)
  }

  /** Validation is what makes a snapshot coherent. */
  lemma ValidatedIsCoherent(t: TopologyInput, received: u64)
    requires Validate(t) == Ok
    ensures Coherent(SnapshotOf(t, received))
  {
    ValidateAccepts(t);
    hide Validate, HeaderIsValid, LayoutsAreValid, Mapped, DecodeValidator, DecodeEndpoint, DecodeAssociation, DecodeLeader;
    var s := SnapshotOf(t, received);
    forall i | 0 <= i < |s.associations|
      ensures s.associations[i].validatorIndex < |s.validators| && s.associations[i].endpointIndex < |s.endpoints|
    {
      MappedAt(NormalAssociation, t.associations.bytes, t.associations.count, t.associations.stride, ASSOCIATION_SIZE, i);
      assert AssociationOk(DecodeAssociation(Slice(t.associations, i, ASSOCIATION_SIZE)),
                           t.associations.stride, t.validators.count, t.endpoints.count);
    }
    forall i | 0 <= i < |s.leaders|
      ensures s.leaders[i].validatorIndex < |s.validators| && s.leaders[i].firstSlot <= s.leaders[i].lastSlot
    {
      MappedAt(NormalLeader, t.leaders.bytes, t.leaders.count, t.leaders.stride, LEADER_SIZE, i);
      assert LeaderOk(DecodeLeader(Slice(t.leaders, i, LEADER_SIZE)), t.leaders.stride, t.validators.count);
    }
  }
}
